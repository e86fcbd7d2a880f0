/**
 * Who owns each reference, who holds each transferred handle, and how much work is left: the
 * measures of the executive's state, and how each locked region moves them.
 */
module ExecutiveLedger {
  import opened Status
  import opened AccessCheck
  import opened HandleTables
  import opened Sums
  import opened Executive
  import opened ExecutiveInvariant

  function Is(a: Id, o: Id): nat { if a == o then 1 else 0 }

  // ----- Owners of references -----

  function Occurs(ids: seq<Id>, o: Id): nat {
    if ids == [] then 0 else Is(ids[0], o) + Occurs(ids[1..], o)
  }

  function BodyHolds(body: Body, o: Id): nat {
    match body
    case Channel(peer, _, _, _, _, _, _, _, _, _, _) => if peer == Some(o) then 1 else 0
    case Port(pending, _, _, _, _, _, _) => Occurs(pending, o)
    case Section(_) => 0
  }

  /** References owned by an object: a channel's to its peer, a port's to its pending endpoints. */
  function ObjHolds(o: Id): Obj -> nat { (x: Obj) => BodyHolds(x.body, o) }

  function EntryHolds(o: Id): Entry -> nat {
    (e: Entry) => if e.inUse && e.obj == Some(o) then 1 else 0
  }

  /** References owned by the handles of a table. */
  ghost function TableHolds(o: Id): Table -> nat { (t: Table) => Sum(EntryHolds(o), t.entries) }

  function ContHolds(cont: Cont, o: Id): nat {
    if cont.IntoSend? then Is(cont.peer, o) else 0
  }

  /** References that a call in flight owns. */
  function TaskHolds(o: Id): Task -> nat {
    (task: Task) =>
      match task
      case RemoveHandle(x) => Is(x, o)
      case Release(x) => Is(x, o)
      case DupSource(_, _, _, _, _, _, cont) => ContHolds(cont, o)
      case DupTarget(x, _, _, _, _, cont) => Is(x, o) + ContHolds(cont, o)
      case SendFinish(_, p, _, _) => Is(p, o)
      case ConnectFinish(_, client, server) => Is(client, o) + 2 * Is(server, o)
      case _ => 0
  }

  /** Handle counts that a call in flight is about to give back. */
  function TaskRemoves(o: Id): Task -> nat {
    (task: Task) => match task case RemoveHandle(x) => Is(x, o) case _ => 0
  }

  ghost function StackHolds(o: Id): seq<Task> -> nat { (stack: seq<Task>) => Sum(TaskHolds(o), stack) }
  ghost function StackRemoves(o: Id): seq<Task> -> nat { (stack: seq<Task>) => Sum(TaskRemoves(o), stack) }

  function Refs(k: Kernel, o: Id): nat { if o < |k.objs| then k.objs[o].refs else 0 }
  function Handles(k: Kernel, o: Id): nat { if o < |k.objs| then k.objs[o].handles else 0 }
  function Client(k: Kernel, o: Id): nat { if o < |k.objs| then k.objs[o].client else 0 }

  /** Entries of all tables that name the object. */
  ghost function Entries(k: Kernel, o: Id): nat { Sum(TableHolds(o), k.tables) }

  /** Peers and port queues that name the object. */
  ghost function Links(k: Kernel, o: Id): nat { Sum(ObjHolds(o), k.objs) }

  ghost function Held(k: Kernel, o: Id): nat { Client(k, o) + Links(k, o) + Entries(k, o) }

  // ----- Where a transferred handle is -----

  function MsgCarries(owner: TableId, key: Key): Msg -> nat {
    (m: Msg) => if m.transfers && (owner, m.handle) == key then 1 else 0
  }

  ghost function BodyCarries(body: Body, key: Key): nat {
    if body.Channel? then Sum(MsgCarries(body.owner, key), body.queue) else 0
  }

  ghost function ObjCarries(key: Key): Obj -> nat { (x: Obj) => BodyCarries(x.body, key) }

  function TaskCarries(key: Key): Task -> nat {
    (task: Task) =>
      match task
      case SendFinish(_, _, dst, m) => if m.transfers && (dst, m.handle) == key then 1 else 0
      case DisposeHandle(t, h) => if (t, h) == key then 1 else 0
      case _ => 0
  }

  ghost function StackCarries(key: Key): seq<Task> -> nat { (stack: seq<Task>) => Sum(TaskCarries(key), stack) }

  ghost function Queued(k: Kernel, key: Key): nat { Sum(ObjCarries(key), k.objs) }

  function Settled(k: Kernel, key: Key): nat { k.delivered[key] + k.disposed[key] }

  // ----- Work left -----

  function BodyCost(body: Body): nat {
    match body
    case Channel(peer, _, _, queue, _, _, _, _, _, _, _) => |queue| + if peer.Some? then 1 else 0
    case Port(pending, _, _, _, _, _, _) => 2 * |pending|
    case Section(_) => 0
  }

  function ObjCost(): Obj -> nat { (x: Obj) => BodyCost(x.body) + if x.destroyed then 0 else 1 }

  ghost function TableCost(): Table -> nat { (t: Table) => 4 * Sum(InUse(), t.entries) }

  function TaskCost(): Task -> nat {
    (task: Task) =>
      match task
      case RemoveHandle(_) => 3
      case SendFinish(_, _, _, _) => 3
      case ConnectFinish(_, _, _) => 5
      case DupTarget(_, _, _, _, _, cont) => if cont.IntoSend? then 9 else 6
      case DupSource(_, _, _, _, _, _, cont) => if cont.IntoSend? then 10 else 7
      case SendBegin(_, _) => 11
      case OpenHandle(_, _, _, _) => 5
      case Lookup(_, _, _, _) => 2
      case ConnectBegin(_, _) => 10
      case CreatePair(_) => 5
      case CreatePort(_, _) => 2
      case CreateSection(_) => 2
      case _ => 1
  }

  ghost function StackCost(): seq<Task> -> nat { (stack: seq<Task>) => Sum(TaskCost(), stack) }

  ghost function KernelCost(k: Kernel): nat { Sum(ObjCost(), k.objs) + Sum(TableCost(), k.tables) }

  // ----- Ports and channels that must still be closed -----

  function StillOpen(x: Obj): bool {
    match x.body
    case Channel(_, _, _, _, _, open, _, _, _, _, _) => open
    case Port(_, _, closed, _, _, _, _) => !closed
    case Section(_) => false
  }

  /** Destroyed, or past its last handle, and not yet closed. */
  predicate Doomed(k: Kernel, o: Id) {
    o < |k.objs| && (k.objs[o].destroyed || k.objs[o].disabled) && StillOpen(k.objs[o])
  }

  function TaskCloses(o: Id): Task -> nat {
    (task: Task) => match task case CloseObject(x) => Is(x, o) case _ => 0
  }

  ghost function StackCloses(o: Id): seq<Task> -> nat { (stack: seq<Task>) => Sum(TaskCloses(o), stack) }

  // ----- How a region moves the measures -----

  /** References: what the region frees or takes matches what its tasks and the kernel then own. */
  ghost predicate RefFlow(k: Kernel, task: Task, r: (Kernel, seq<Task>), o: Id) {
    Refs(r.0, o) + Held(k, o) + TaskHolds(o)(task) == Refs(k, o) + Held(r.0, o) + Sum(TaskHolds(o), r.1)
  }

  ghost predicate HandleFlow(k: Kernel, task: Task, r: (Kernel, seq<Task>), o: Id) {
    Handles(r.0, o) + Entries(k, o) + TaskRemoves(o)(task) == Handles(k, o) + Entries(r.0, o) + Sum(TaskRemoves(o), r.1)
  }

  ghost predicate KeyFlow(k: Kernel, task: Task, r: (Kernel, seq<Task>), key: Key) {
    r.0.transferred[key] + Settled(k, key) + Queued(k, key) + TaskCarries(key)(task) ==
    k.transferred[key] + Settled(r.0, key) + Queued(r.0, key) + Sum(TaskCarries(key), r.1)
  }

  ghost predicate CostFlow(k: Kernel, task: Task, r: (Kernel, seq<Task>)) {
    KernelCost(r.0) + Sum(TaskCost(), r.1) < KernelCost(k) + TaskCost()(task)
  }

  ghost predicate DoomFlow(k: Kernel, task: Task, r: (Kernel, seq<Task>), o: Id) {
    Doomed(r.0, o) ==> Sum(TaskCloses(o), r.1) >= 1 || (Doomed(k, o) && task != CloseObject(o))
  }

  ghost predicate Flow(k: Kernel, task: Task, r: (Kernel, seq<Task>), o: Id, key: Key) {
    && RefFlow(k, task, r, o)
    && HandleFlow(k, task, r, o)
    && KeyFlow(k, task, r, key)
    && CostFlow(k, task, r)
    && DoomFlow(k, task, r, o)
  }

  // ----- Pieces -----

  /** The measures of a stack whose top is `t`. */
  lemma Cons(t: Task, rest: seq<Task>, o: Id, key: Key)
    ensures Sum(TaskHolds(o), [t] + rest) == TaskHolds(o)(t) + Sum(TaskHolds(o), rest)
    ensures Sum(TaskRemoves(o), [t] + rest) == TaskRemoves(o)(t) + Sum(TaskRemoves(o), rest)
    ensures Sum(TaskCarries(key), [t] + rest) == TaskCarries(key)(t) + Sum(TaskCarries(key), rest)
    ensures Sum(TaskCost(), [t] + rest) == TaskCost()(t) + Sum(TaskCost(), rest)
    ensures Sum(TaskCloses(o), [t] + rest) == TaskCloses(o)(t) + Sum(TaskCloses(o), rest)
  {
    SumPush(TaskHolds(o), t, rest);
    SumPush(TaskRemoves(o), t, rest);
    SumPush(TaskCarries(key), t, rest);
    SumPush(TaskCost(), t, rest);
    SumPush(TaskCloses(o), t, rest);
  }

  lemma Nil(o: Id, key: Key)
    ensures Sum(TaskHolds(o), []) == 0 && Sum(TaskRemoves(o), []) == 0 && Sum(TaskCarries(key), []) == 0
    ensures Sum(TaskCost(), []) == 0 && Sum(TaskCloses(o), []) == 0
  {
  }

  lemma One(t: Task, o: Id, key: Key)
    ensures Sum(TaskHolds(o), [t]) == TaskHolds(o)(t)
    ensures Sum(TaskRemoves(o), [t]) == TaskRemoves(o)(t)
    ensures Sum(TaskCarries(key), [t]) == TaskCarries(key)(t)
    ensures Sum(TaskCost(), [t]) == TaskCost()(t)
    ensures Sum(TaskCloses(o), [t]) == TaskCloses(o)(t)
  {
    Cons(t, [], o, key);
    assert [t] + [] == [t];
  }

  lemma Two(t: Task, u: Task, o: Id, key: Key)
    ensures Sum(TaskHolds(o), [t, u]) == TaskHolds(o)(t) + TaskHolds(o)(u)
    ensures Sum(TaskRemoves(o), [t, u]) == TaskRemoves(o)(t) + TaskRemoves(o)(u)
    ensures Sum(TaskCarries(key), [t, u]) == TaskCarries(key)(t) + TaskCarries(key)(u)
    ensures Sum(TaskCost(), [t, u]) == TaskCost()(t) + TaskCost()(u)
    ensures Sum(TaskCloses(o), [t, u]) == TaskCloses(o)(t) + TaskCloses(o)(u)
  {
    Cons(t, [u], o, key);
    One(u, o, key);
    assert [t] + [u] == [t, u];
  }

  lemma Concat(a: seq<Task>, b: seq<Task>, o: Id, key: Key)
    ensures Sum(TaskHolds(o), a + b) == Sum(TaskHolds(o), a) + Sum(TaskHolds(o), b)
    ensures Sum(TaskRemoves(o), a + b) == Sum(TaskRemoves(o), a) + Sum(TaskRemoves(o), b)
    ensures Sum(TaskCarries(key), a + b) == Sum(TaskCarries(key), a) + Sum(TaskCarries(key), b)
    ensures Sum(TaskCost(), a + b) == Sum(TaskCost(), a) + Sum(TaskCost(), b)
    ensures Sum(TaskCloses(o), a + b) == Sum(TaskCloses(o), a) + Sum(TaskCloses(o), b)
  {
    SumConcat(TaskHolds(o), a, b);
    SumConcat(TaskRemoves(o), a, b);
    SumConcat(TaskCarries(key), a, b);
    SumConcat(TaskCost(), a, b);
    SumConcat(TaskCloses(o), a, b);
  }

  /** The kernel-side measures after one object is replaced. */
  lemma ObjUpdate(k: Kernel, i: Id, x: Obj, o: Id, key: Key)
    requires i < |k.objs|
    ensures var k' := SetObj(k, i, x);
            && Links(k', o) + BodyHolds(k.objs[i].body, o) == Links(k, o) + BodyHolds(x.body, o)
            && Queued(k', key) + BodyCarries(k.objs[i].body, key) == Queued(k, key) + BodyCarries(x.body, key)
            && KernelCost(k') + ObjCost()(k.objs[i]) == KernelCost(k) + ObjCost()(x)
            && Entries(k', o) == Entries(k, o)
  {
    SumUpdate(ObjHolds(o), k.objs, i, x);
    SumUpdate(ObjCarries(key), k.objs, i, x);
    SumUpdate(ObjCost(), k.objs, i, x);
  }

  /** ... after one header is changed. */
  lemma HeaderFlow(k: Kernel, i: Id, x: Obj, o: Id, key: Key)
    requires i < |k.objs| && x.body == k.objs[i].body
    ensures var k' := SetObj(k, i, x);
            && Links(k', o) == Links(k, o) && Queued(k', key) == Queued(k, key) && Entries(k', o) == Entries(k, o)
            && KernelCost(k') + (if k.objs[i].destroyed then 0 else 1) == KernelCost(k) + (if x.destroyed then 0 else 1)
  {
    ObjUpdate(k, i, x, o, key);
  }

  /** ... after a caller is given a reference that something else owned. */
  lemma ClientFlow(k: Kernel, i: Id, o: Id, key: Key)
    requires i < |k.objs|
    ensures var k' := SetObj(k, i, k.objs[i].(client := k.objs[i].client + 1));
            && Refs(k', o) == Refs(k, o) && Handles(k', o) == Handles(k, o)
            && Client(k', o) == Client(k, o) + Is(i, o)
            && Links(k', o) == Links(k, o) && Entries(k', o) == Entries(k, o) && Queued(k', key) == Queued(k, key)
            && KernelCost(k') == KernelCost(k) && Doomed(k', o) == Doomed(k, o)
  {
    hide Links, Entries, Queued, KernelCost;
    HeaderFlow(k, i, k.objs[i].(client := k.objs[i].client + 1), o, key);
  }

  /** ... after one table is replaced. */
  lemma TableFlow(k: Kernel, t: TableId, u: Table, o: Id, key: Key)
    requires t < |k.tables|
    ensures var k' := SetTable(k, t, u);
            && Entries(k', o) + TableHolds(o)(k.tables[t]) == Entries(k, o) + TableHolds(o)(u)
            && Links(k', o) == Links(k, o)
            && Queued(k', key) == Queued(k, key)
            && KernelCost(k') + TableCost()(k.tables[t]) == KernelCost(k) + TableCost()(u)
  {
    SumUpdate(TableHolds(o), k.tables, t, u);
    SumUpdate(TableCost(), k.tables, t, u);
  }

  /** ... after only the records of keys change. */
  lemma RecordFlow(k: Kernel, k': Kernel, o: Id, key: Key)
    requires k'.objs == k.objs && k'.tables == k.tables
    ensures Links(k', o) == Links(k, o) && Entries(k', o) == Entries(k, o) && Queued(k', key) == Queued(k, key)
    ensures KernelCost(k') == KernelCost(k)
  {
  }

  lemma VacateFlow(t: Table, i: nat, o: Id)
    requires i < |t.entries| && t.entries[i].inUse && t.entries[i].obj.Some?
    ensures TableHolds(o)(Vacate(t, i)) + Is(t.entries[i].obj.value, o) == TableHolds(o)(t)
    ensures TableCost()(Vacate(t, i)) + 4 == TableCost()(t)
  {
    var e := Vacate(t, i).entries[i];
    SumUpdate(EntryHolds(o), t.entries, i, e);
    SumUpdate(InUse(), t.entries, i, e);
  }

  lemma FillFlow(t: Table, i: nat, obj: nat, access: Mask, origin: Mask, o: Id)
    requires i < |t.entries| && !t.entries[i].inUse
    ensures TableHolds(o)(Fill(t, i, obj, access, origin)) == TableHolds(o)(t) + Is(obj, o)
    ensures TableCost()(Fill(t, i, obj, access, origin)) == TableCost()(t) + 4
  {
    var e := Fill(t, i, obj, access, origin).entries[i];
    SumUpdate(EntryHolds(o), t.entries, i, e);
    SumUpdate(InUse(), t.entries, i, e);
  }

  // ----- Regions -----

  lemma FlowRelease(k: Kernel, x: Id, o: Id, key: Key)
    requires KInv(k) && Funded(k, Release(x))
    ensures Flow(k, Release(x), ExecRelease(k, x), o, key)
  {
    hide KInv, Links, Entries, Queued, KernelCost, Sum;
    Nil(o, key);
    InvObj(k, x);
    HeaderFlow(k, x, ExecRelease(k, x).0.objs[x], o, key);
    One(CloseObject(x), o, key);
  }

  lemma FlowRemoveHandle(k: Kernel, x: Id, o: Id, key: Key)
    requires KInv(k) && Funded(k, RemoveHandle(x))
    ensures Flow(k, RemoveHandle(x), ExecRemoveHandle(k, x), o, key)
  {
    hide KInv, Links, Entries, Queued, KernelCost, Sum;
    Nil(o, key);
    InvObj(k, x);
    HeaderFlow(k, x, ExecRemoveHandle(k, x).0.objs[x], o, key);
    One(Release(x), o, key);
    Two(CloseObject(x), Release(x), o, key);
  }

  lemma FlowReference(k: Kernel, x: Id, o: Id, key: Key)
    requires KInv(k) && x < |k.objs|
    ensures Flow(k, Reference(x), ExecReference(k, x), o, key)
  {
    hide KInv, Links, Entries, Queued, KernelCost, Sum;
    Nil(o, key);
    if CanReference(k.objs[x]) { HeaderFlow(k, x, ExecReference(k, x).0.objs[x], o, key); }
  }

  lemma FlowCloseHandle(k: Kernel, t: TableId, h: nat, o: Id, key: Key)
    requires KInv(k) && t < |k.tables|
    ensures Flow(k, CloseHandle(t, h), ExecCloseHandle(k, t, h), o, key)
  {
    hide KInv, Links, Entries, Queued, KernelCost, Sum, TableHolds, TableCost;
    Nil(o, key);
    var r := Resolve(k.tables[t], h);
    if r.Some? {
      InvEntry(k, t, h);
      ResolveNames(k.tables[t], h);
      VacateFlow(k.tables[t], r.value, o);
      TableFlow(k, t, Vacate(k.tables[t], r.value), o, key);
      One(RemoveHandle(k.tables[t].entries[r.value].obj.value), o, key);
    }
  }

  lemma FlowDispose(k: Kernel, t: TableId, h: nat, o: Id, key: Key)
    requires KInv(k) && t < |k.tables|
    ensures Flow(k, DisposeHandle(t, h), ExecDispose(k, t, h), o, key)
  {
    hide KInv, TableHolds, TableCost, Sum;
    Nil(o, key);
    FlowCloseHandle(k, t, h, o, key);
    var (k1, push) := ExecCloseHandle(k, t, h);
    assert Sum(TaskCarries(key), push) == 0 by { if push != [] { One(push[0], o, key); assert push == [push[0]]; } }
  }

  lemma FlowCloseAll(k: Kernel, t: TableId, from: nat, o: Id, key: Key)
    requires KInv(k) && TaskOk(k, CloseAll(t, from)) && EntriesHaveObjects(k)
    ensures Flow(k, CloseAll(t, from), Exec(k, CloseAll(t, from)), o, key)
  {
    hide KInv, EntriesHaveObjects, TableValid, Links, Entries, Queued, KernelCost, Sum, TableHolds, TableCost;
    Nil(o, key);
    InvTable(k, t);
    var closing := k.tables[t].(closing := true);
    var i := FirstInUse(closing.entries, from);
    if i == |closing.entries| {
      var swept := closing.(swept := true);
      MarkFlow(k.tables[t], swept, o);
      TableFlow(k, t, swept, o, key);
    } else {
      MarkFlow(k.tables[t], closing, o);
      VacateFlow(closing, i, o);
      TableFlow(k, t, Vacate(closing, i), o, key);
      Two(RemoveHandle(closing.entries[i].obj.value), CloseAll(t, i + 1), o, key);
    }
  }

  /** A table's marks do not change what its handles own. */
  lemma MarkFlow(t: Table, u: Table, o: Id)
    requires u.entries == t.entries
    ensures TableHolds(o)(u) == TableHolds(o)(t) && TableCost()(u) == TableCost()(t)
  {
  }

  /** The handle that an open inserts owns the reference and the handle count that it adds. */
  lemma FlowInsert(k: Kernel, t: TableId, x: Id, token: Token, access: Mask, origin: Mask, o: Id, key: Key)
    requires KInv(k) && t < |k.tables| && x < |k.objs|
    requires InsertHandle(k, t, x, token, access, origin).Some?
    ensures var k' := InsertHandle(k, t, x, token, access, origin).value.0;
            && Refs(k', o) == Refs(k, o) + Is(x, o) && Handles(k', o) == Handles(k, o) + Is(x, o)
            && Client(k', o) == Client(k, o) && Links(k', o) == Links(k, o)
            && Entries(k', o) == Entries(k, o) + Is(x, o)
            && Queued(k', key) == Queued(k, key)
            && KernelCost(k') == KernelCost(k) + 4
            && Doomed(k', o) == Doomed(k, o)
  {
    hide KInv, Links, Entries, Queued, KernelCost, Sum, TableHolds, TableCost;
    Nil(o, key);
    var y := k.objs[x].(refs := k.objs[x].refs + 1, handles := k.objs[x].handles + 1);
    HeaderFlow(k, x, y, o, key);
    var k0 := SetObj(k, x, y);
    var i := FirstFree(k.tables[t].entries, 0);
    FillFlow(k.tables[t], i, x, access, origin, o);
    TableFlow(k0, t, Fill(k.tables[t], i, x, access, origin), o, key);
  }

  lemma InsertKeepsKeys(k: Kernel, t: TableId, x: Id, token: Token, access: Mask, origin: Mask)
    requires t < |k.tables| && x < |k.objs| && InsertHandle(k, t, x, token, access, origin).Some?
    ensures var k' := InsertHandle(k, t, x, token, access, origin).value.0;
            k'.transferred == k.transferred && k'.delivered == k.delivered && k'.disposed == k.disposed
  {
  }

  lemma FlowOpenHandle(k: Kernel, t: TableId, x: Id, token: Token, access: Mask, o: Id, key: Key)
    requires KInv(k) && t < |k.tables| && x < |k.objs|
    ensures Flow(k, OpenHandle(t, x, token, access), ExecOpenHandle(k, t, x, token, access), o, key)
  {
    hide KInv, Links, Entries, Queued, KernelCost, Sum;
    Nil(o, key);
    if InsertHandle(k, t, x, token, access, access).Some? { FlowInsert(k, t, x, token, access, access, o, key); }
  }

  lemma FlowReferenceEntry(k: Kernel, t: TableId, h: nat, o: Id, key: Key)
    requires KInv(k) && t < |k.tables| && ReferenceEntry(k, t, h).Some?
    ensures var (k', e) := ReferenceEntry(k, t, h).value;
            && Refs(k', o) == Refs(k, o) + Is(e.obj.value, o) && Handles(k', o) == Handles(k, o)
            && Client(k', o) == Client(k, o) && Links(k', o) == Links(k, o) && Entries(k', o) == Entries(k, o)
            && Queued(k', key) == Queued(k, key) && KernelCost(k') == KernelCost(k)
            && Doomed(k', o) == Doomed(k, o)
            && k'.transferred == k.transferred && k'.delivered == k.delivered && k'.disposed == k.disposed
  {
    hide KInv, Links, Entries, Queued, KernelCost, Resolve, Sum;
    Nil(o, key);
    KeepsReferenceEntry(k, t, h);
    var x := ReferenceEntry(k, t, h).value.1.obj.value;
    HeaderFlow(k, x, k.objs[x].(refs := k.objs[x].refs + 1), o, key);
  }

  lemma FlowLookup(k: Kernel, t: TableId, h: nat, access: Mask, kind: Kind, o: Id, key: Key)
    requires KInv(k) && t < |k.tables|
    ensures Flow(k, Lookup(t, h, access, kind), ExecLookup(k, t, h, access, kind), o, key)
  {
    hide KInv, Links, Entries, Queued, KernelCost, Sum, ReferenceEntry, Resolve;
    Nil(o, key);
    var r := ReferenceEntry(k, t, h);
    if r.Some? {
      FlowReferenceEntry(k, t, h, o, key);
      KeepsReferenceEntry(k, t, h);
      var x := r.value.1.obj.value;
      if ExecLookup(k, t, h, access, kind).1 == [] {
        ClientFlow(r.value.0, x, o, key);
      } else {
        One(Release(x), o, key);
      }
    }
  }

  lemma FlowAbandon(cont: Cont, o: Id, key: Key)
    ensures Sum(TaskHolds(o), Abandon(cont)) == ContHolds(cont, o)
    ensures Sum(TaskRemoves(o), Abandon(cont)) == 0
    ensures Sum(TaskCarries(key), Abandon(cont)) == 0
    ensures Sum(TaskCost(), Abandon(cont)) <= 1
    ensures Sum(TaskCloses(o), Abandon(cont)) == 0
  {
    if cont.IntoSend? { One(Release(cont.peer), o, key); }
  }

  lemma FlowDupSource(k: Kernel, src: TableId, h: nat, dst: TableId, token: Token, access: Mask, same: bool,
                      cont: Cont, o: Id, key: Key)
    requires KInv(k) && src < |k.tables|
    ensures Flow(k, DupSource(src, h, dst, token, access, same, cont),
                 ExecDupSource(k, src, h, dst, token, access, same, cont), o, key)
  {
    hide KInv, Links, Entries, Queued, KernelCost, Resolve, Sum, ReferenceEntry;
    FlowAbandon(cont, o, key);
    var r := ReferenceEntry(k, src, h);
    if (same || access != {}) && r.Some? {
      FlowReferenceEntry(k, src, h, o, key);
      var entry := r.value.1;
      var x := entry.obj.value;
      var wanted := if same then entry.access else access;
      if wanted <= entry.access {
        One(DupTarget(x, wanted, entry.origin, dst, token, cont), o, key);
      } else {
        Cons(Release(x), Abandon(cont), o, key);
      }
    }
  }

  lemma FlowDupTarget(k: Kernel, x: Id, access: Mask, origin: Mask, dst: TableId, token: Token, cont: Cont, o: Id, key: Key)
    requires KInv(k) && TaskOk(k, DupTarget(x, access, origin, dst, token, cont))
    ensures Flow(k, DupTarget(x, access, origin, dst, token, cont),
                 ExecDupTarget(k, x, access, origin, dst, token, cont), o, key)
  {
    hide KInv, Links, Entries, Queued, KernelCost, Resolve, Sum;
    Nil(o, key);
    FlowAbandon(cont, o, key);
    Cons(Release(x), Abandon(cont), o, key);
    var r := InsertHandle(k, dst, x, token, access, origin);
    if r.Some? {
      FlowInsert(k, dst, x, token, access, origin, o, key);
      InsertKeepsKeys(k, dst, x, token, access, origin);
      One(Release(x), o, key);
      if cont.IntoSend? {
        Two(Release(x), SendFinish(cont.channel, cont.peer, dst, cont.msg.(handle := r.value.1)), o, key);
        RecordFlow(r.value.0, ExecDupTarget(k, x, access, origin, dst, token, cont).0, o, key);
      }
    }
  }

  lemma FlowSendBegin(k: Kernel, c: Id, m: Msg, o: Id, key: Key)
    requires KInv(k) && IsChannel(k, c)
    ensures Flow(k, SendBegin(c, m), ExecSendBegin(k, c, m), o, key)
  {
    hide KInv, Links, Entries, Queued, KernelCost, Sum;
    Nil(o, key);
    InvObj(k, c);
    var (k', push) := ExecSendBegin(k, c, m);
    if push != [] {
      var p := k.objs[c].body.peer.value;
      HeaderFlow(k, p, k.objs[p].(refs := k.objs[p].refs + 1), o, key);
      One(push[0], o, key);
      assert push == [push[0]];
    }
  }

  lemma FlowSendFinish(k: Kernel, c: Id, p: Id, dst: TableId, m: Msg, o: Id, key: Key)
    requires KInv(k) && TaskOk(k, SendFinish(c, p, dst, m))
    ensures Flow(k, SendFinish(c, p, dst, m), ExecSendFinish(k, c, p, dst, m), o, key)
  {
    hide KInv, Links, Entries, Queued, KernelCost, Sum, BodyCarries;
    Nil(o, key);
    One(Release(p), o, key);
    Two(DisposeHandle(dst, m.handle), Release(p), o, key);
    assert [DisposeHandle(dst, m.handle)] + [Release(p)] == [DisposeHandle(dst, m.handle), Release(p)];
    assert [] + [Release(p)] == [Release(p)];
    var (k', push) := ExecSendFinish(k, c, p, dst, m);
    if k' != k {
      ObjUpdate(k, p, k'.objs[p], o, key);
      CarriesAppend(k.objs[p].body, k'.objs[p].body, m, key);
    }
  }

  lemma CarriesAppend(a: Body, b: Body, m: Msg, key: Key)
    requires a.Channel? && b.Channel? && b.owner == a.owner && b.queue == a.queue + [m]
    ensures BodyCarries(b, key) == BodyCarries(a, key) + MsgCarries(a.owner, key)(m)
  {
    SumAppend(MsgCarries(a.owner, key), a.queue, m);
  }

  lemma CarriesRest(a: Body, b: Body, key: Key)
    requires a.Channel? && b.Channel? && b.owner == a.owner && a.queue != [] && b.queue == a.queue[1..]
    ensures BodyCarries(a, key) == BodyCarries(b, key) + MsgCarries(a.owner, key)(a.queue[0])
  {
  }

  lemma FlowReceive(k: Kernel, c: Id, o: Id, key: Key)
    requires KInv(k) && IsChannel(k, c)
    ensures Flow(k, Receive(c), ExecReceive(k, c), o, key)
  {
    hide KInv, Links, Entries, Queued, KernelCost, Sum, BodyCarries;
    Nil(o, key);
    var (k', push) := ExecReceive(k, c);
    if k.objs[c].body.queue != [] {
      var k1 := SetObj(k, c, k'.objs[c]);
      ObjUpdate(k, c, k'.objs[c], o, key);
      RecordFlow(k1, k', o, key);
      CarriesRest(k.objs[c].body, k'.objs[c].body, key);
    }
  }

  /** Draining a queue hands every transferred handle to one disposal. */
  lemma {:induction false} FlowDisposals(owner: TableId, queue: seq<Msg>, o: Id, key: Key)
    ensures Sum(TaskHolds(o), Disposals(owner, queue)) == 0
    ensures Sum(TaskRemoves(o), Disposals(owner, queue)) == 0
    ensures Sum(TaskCarries(key), Disposals(owner, queue)) == Sum(MsgCarries(owner, key), queue)
    ensures Sum(TaskCost(), Disposals(owner, queue)) <= |queue|
    ensures Sum(TaskCloses(o), Disposals(owner, queue)) == 0
  {
    Nil(o, key);
    if queue != [] {
      FlowDisposals(owner, queue[1..], o, key);
      Cons(DisposeHandle(owner, queue[0].handle), Disposals(owner, queue[1..]), o, key);
      assert [] + Disposals(owner, queue[1..]) == Disposals(owner, queue[1..]);
    }
  }

  /** What a channel and its peer own is let go of when the pair is severed. */
  lemma SeverFlow(k: Kernel, c: Id, o: Id, key: Key)
    requires KInv(k) && IsChannel(k, c) && k.objs[c].body.open
    ensures var k' := ExecCloseChannel(k, c).0;
            var ch := k.objs[c].body;
            && Links(k', o) + (if ch.peer.Some? then Is(ch.peer.value, o) + Is(c, o) else 0) == Links(k, o)
            && Queued(k', key) + BodyCarries(ch, key) == Queued(k, key)
            && KernelCost(k') + |ch.queue| + (if ch.peer.Some? then 2 else 0) == KernelCost(k)
            && Refs(k', o) == Refs(k, o) && Handles(k', o) == Handles(k, o) && Client(k', o) == Client(k, o)
            && Entries(k', o) == Entries(k, o)
            && (Doomed(k', o) ==> Doomed(k, o) && o != c)
            && k'.transferred == k.transferred && k'.delivered == k.delivered && k'.disposed == k.disposed
  {
    hide KInv, Links, Entries, Queued, KernelCost, Sum, Disposals, BodyCarries;
    InvObj(k, c);
    var ch := k.objs[c].body;
    var k' := ExecCloseChannel(k, c).0;
    var k1 := SetObj(k, c, k'.objs[c]);
    ObjUpdate(k, c, k'.objs[c], o, key);
    EmptyCarries(k'.objs[c].body, key);
    if ch.peer.Some? {
      ObjUpdate(k1, ch.peer.value, k'.objs[ch.peer.value], o, key);
      SameCarries(k1.objs[ch.peer.value].body, k'.objs[ch.peer.value].body, key);
    }
  }

  lemma SameCarries(a: Body, b: Body, key: Key)
    requires a.Channel? && b.Channel? && a.owner == b.owner && a.queue == b.queue
    ensures BodyCarries(a, key) == BodyCarries(b, key)
  {
  }

  lemma FlowCloseChannel(k: Kernel, c: Id, o: Id, key: Key)
    requires KInv(k) && IsChannel(k, c)
    ensures Flow(k, CloseObject(c), ExecCloseChannel(k, c), o, key)
  {
    hide KInv, Links, Entries, Queued, KernelCost, Sum, Disposals;
    Nil(o, key);
    InvObj(k, c);
    var ch := k.objs[c].body;
    if ch.open {
      SeverFlow(k, c, o, key);
      var drops := Disposals(ch.owner, ch.queue);
      FlowDisposals(ch.owner, ch.queue, o, key);
      if ch.peer.Some? {
        var p := ch.peer.value;
        assert ExecCloseChannel(k, c).1 == drops + [Release(p), Release(c)];
        Two(Release(p), Release(c), o, key);
        Concat(drops, [Release(p), Release(c)], o, key);
      }
    }
  }

  lemma EmptyCarries(body: Body, key: Key)
    requires body.Channel? && body.queue == []
    ensures BodyCarries(body, key) == 0
  {
  }

  lemma {:induction false} FlowAbandonments(pending: seq<Id>, o: Id, key: Key)
    ensures Sum(TaskHolds(o), Abandonments(pending)) == Occurs(pending, o)
    ensures Sum(TaskRemoves(o), Abandonments(pending)) == 0
    ensures Sum(TaskCarries(key), Abandonments(pending)) == 0
    ensures Sum(TaskCost(), Abandonments(pending)) == 2 * |pending|
  {
    Nil(o, key);
    if pending != [] {
      var rest := Abandonments(pending[1..]);
      FlowAbandonments(pending[1..], o, key);
      Two(CloseObject(pending[0]), Release(pending[0]), o, key);
      Concat([CloseObject(pending[0]), Release(pending[0])], rest, o, key);
    }
  }

  lemma FlowClosePort(k: Kernel, p: Id, o: Id, key: Key)
    requires KInv(k) && IsPort(k, p)
    ensures Flow(k, CloseObject(p), ExecClosePort(k, p), o, key)
  {
    hide KInv, Links, Entries, Queued, KernelCost, Sum, Abandonments;
    Nil(o, key);
    if !k.objs[p].body.closed {
      ObjUpdate(k, p, ExecClosePort(k, p).0.objs[p], o, key);
      FlowAbandonments(k.objs[p].body.pending, o, key);
    }
  }

  lemma FlowCloseObject(k: Kernel, x: Id, o: Id, key: Key)
    requires KInv(k) && x < |k.objs|
    ensures Flow(k, CloseObject(x), ExecCloseObject(k, x), o, key)
  {
    hide KInv, Links, Entries, Queued, KernelCost, Sum;
    Nil(o, key);
    match k.objs[x].body
    case Channel(_, _, _, _, _, _, _, _, _, _, _) => FlowCloseChannel(k, x, o, key);
    case Port(_, _, _, _, _, _, _) => FlowClosePort(k, x, o, key);
    case Section(_) => ObjUpdate(k, x, k.objs[x].(body := Section(false)), o, key);
  }

  /** Nothing names an object before it exists. */
  lemma Unnamed(k: Kernel, o: Id)
    requires KInv(k) && o >= |k.objs|
    ensures Links(k, o) == 0 && Entries(k, o) == 0
  {
    forall i | 0 <= i < |k.objs| ensures ObjHolds(o)(k.objs[i]) == 0 {
      InvObj(k, i);
      if k.objs[i].body.Port? { NotPending(k.objs[i].body.pending, o); }
    }
    SumZero(ObjHolds(o), k.objs);
    forall t | 0 <= t < |k.tables| ensures TableHolds(o)(k.tables[t]) == 0 {
      InvTable(k, t);
      SumZero(EntryHolds(o), k.tables[t].entries);
    }
    SumZero(TableHolds(o), k.tables);
  }

  lemma {:induction false} NotPending(pending: seq<Id>, o: Id)
    requires forall j :: 0 <= j < |pending| ==> pending[j] != o
    ensures Occurs(pending, o) == 0
  {
    if pending != [] { NotPending(pending[1..], o); }
  }

  lemma AppendFlow(k: Kernel, x: Obj, o: Id, key: Key)
    ensures var k' := k.(objs := k.objs + [x]);
            && Links(k', o) == Links(k, o) + BodyHolds(x.body, o)
            && Queued(k', key) == Queued(k, key) + BodyCarries(x.body, key)
            && KernelCost(k') == KernelCost(k) + ObjCost()(x)
            && Entries(k', o) == Entries(k, o)
  {
    SumAppend(ObjHolds(o), k.objs, x);
    SumAppend(ObjCarries(key), k.objs, x);
    SumAppend(ObjCost(), k.objs, x);
  }

  lemma PairFlow(k: Kernel, options: PairOptions, client: nat, extra: nat, o: Id, key: Key)
    requires KInv(k)
    ensures var k' := AddPair(k, options, client, extra);
            && Refs(k', o) + Held(k, o) ==
               Refs(k, o) + Held(k', o) + (1 + extra - client) * Is(|k.objs| + 1, o) + (1 - client) * Is(|k.objs|, o)
            && Handles(k', o) == Handles(k, o) && Entries(k', o) == Entries(k, o)
            && Queued(k', key) == Queued(k, key)
            && KernelCost(k') == KernelCost(k) + 4
            && (Doomed(k', o) ==> Doomed(k, o))
            && k'.transferred == k.transferred && k'.delivered == k.delivered && k'.disposed == k.disposed
  {
    hide KInv, Links, Entries, Queued, KernelCost, Sum, BodyCarries;
    var n := |k.objs|;
    var x := NewObj(NewChannel(n + 1, options.clientTable, options.clientToken, options.limit),
                    Some(options.clientSecurity), 2, client);
    var y := NewObj(NewChannel(n, options.serverTable, options.serverToken, options.limit),
                    Some(options.serverSecurity), 2 + extra, client);
    var k1 := k.(objs := k.objs + [x]);
    AppendFlow(k, x, o, key);
    AppendFlow(k1, y, o, key);
    EmptyCarries(x.body, key);
    EmptyCarries(y.body, key);
    assert AddPair(k, options, client, extra) == k1.(objs := k1.objs + [y]);
    if o >= n { Unnamed(k, o); }
  }

  lemma FlowConnectBegin(k: Kernel, port: Id, options: PairOptions, o: Id, key: Key)
    requires KInv(k)
    ensures Flow(k, ConnectBegin(port, options), ExecConnectBegin(k, port, options), o, key)
  {
    hide KInv, Links, Entries, Queued, KernelCost, Sum;
    Nil(o, key);
    if OptionsValid(k, options) {
      PairFlow(k, options, 0, 1, o, key);
      One(ConnectFinish(port, |k.objs|, |k.objs| + 1), o, key);
    }
  }

  lemma FlowCreatePair(k: Kernel, options: PairOptions, o: Id, key: Key)
    requires KInv(k)
    ensures Flow(k, CreatePair(options), ExecCreatePair(k, options), o, key)
  {
    hide KInv, Links, Entries, Queued, KernelCost, Sum;
    Nil(o, key);
    if OptionsValid(k, options) { PairFlow(k, options, 1, 0, o, key); }
  }

  lemma FlowConnectFinish(k: Kernel, port: Id, client: Id, server: Id, o: Id, key: Key)
    requires KInv(k) && TaskOk(k, ConnectFinish(port, client, server))
    ensures Flow(k, ConnectFinish(port, client, server), ExecConnectFinish(k, port, client, server), o, key)
  {
    hide KInv, Links, Entries, Queued, KernelCost, Sum;
    Nil(o, key);
    var x := k.objs[port];
    if x.body.closed || |x.body.pending| == x.body.limit {
      FlowRefused(client, server, o, key);
    } else {
      var body := x.body.(pending := x.body.pending + [server], signal := |x.body.pending| + 1,
                          offered := x.body.offered + [server]);
      var k1 := SetObj(k, port, x.(body := body));
      PendFlow(k, port, server, o, key);
      var k2 := SetObj(k1, client, k1.objs[client].(client := k1.objs[client].client + 1));
      ClientFlow(k1, client, o, key);
      ClientFlow(k2, server, o, key);
    }
  }

  /** The failure path of a connect gives back all that the call owned. */
  lemma FlowRefused(client: Id, server: Id, o: Id, key: Key)
    ensures var push := [CloseObject(client), Release(server), Release(client), Release(server)];
            && Sum(TaskHolds(o), push) == Is(client, o) + 2 * Is(server, o)
            && Sum(TaskRemoves(o), push) == 0 && Sum(TaskCarries(key), push) == 0 && Sum(TaskCost(), push) == 4
  {
    hide Sum;
    Two(Release(client), Release(server), o, key);
    Two(CloseObject(client), Release(server), o, key);
    Concat([CloseObject(client), Release(server)], [Release(client), Release(server)], o, key);
    assert [CloseObject(client), Release(server)] + [Release(client), Release(server)] ==
           [CloseObject(client), Release(server), Release(client), Release(server)];
  }

  lemma PendFlow(k: Kernel, port: Id, server: Id, o: Id, key: Key)
    requires IsPort(k, port)
    ensures var x := k.objs[port];
            var body := x.body.(pending := x.body.pending + [server], signal := |x.body.pending| + 1,
                          offered := x.body.offered + [server]);
            var k' := SetObj(k, port, x.(body := body));
            && Links(k', o) == Links(k, o) + Is(server, o)
            && Refs(k', o) == Refs(k, o) && Handles(k', o) == Handles(k, o) && Client(k', o) == Client(k, o)
            && Entries(k', o) == Entries(k, o) && Queued(k', key) == Queued(k, key)
            && KernelCost(k') == KernelCost(k) + 2 && Doomed(k', o) == Doomed(k, o)
  {
    hide Links, Entries, Queued, KernelCost;
    var x := k.objs[port];
    var body := x.body.(pending := x.body.pending + [server], signal := |x.body.pending| + 1,
                          offered := x.body.offered + [server]);
    ObjUpdate(k, port, x.(body := body), o, key);
    OccursAppend(x.body.pending, server, o);
  }

  lemma {:induction false} OccursAppend(ids: seq<Id>, x: Id, o: Id)
    ensures Occurs(ids + [x], o) == Occurs(ids, o) + Is(x, o)
  {
    if ids != [] {
      assert (ids + [x])[1..] == ids[1..] + [x];
      OccursAppend(ids[1..], x, o);
    }
  }

  lemma FlowAccept(k: Kernel, port: Id, o: Id, key: Key)
    requires KInv(k) && IsPort(k, port)
    ensures Flow(k, Accept(port), ExecAccept(k, port), o, key)
  {
    hide KInv, Links, Entries, Queued, KernelCost, Sum;
    Nil(o, key);
    InvObj(k, port);
    var x := k.objs[port];
    if x.body.pending != [] {
      var rest := x.body.pending[1..];
      var c := x.body.pending[0];
      var body := x.body.(pending := rest, signal := |rest|, accepted := x.body.accepted + [c]);
      var k1 := SetObj(k, port, x.(body := body));
      ObjUpdate(k, port, x.(body := body), o, key);
      ClientFlow(k1, c, o, key);
    }
  }

  lemma FlowCreateObject(k: Kernel, task: Task, x: Obj, o: Id, key: Key)
    requires KInv(k) && (task.CreatePort? || task.CreateSection?)
    requires x == NewObj(x.body, x.security, 1, 1)
    requires x.body.Section? || (x.body.Port? && x.body.pending == [])
    ensures Flow(k, task, (k.(objs := k.objs + [x]), []), o, key)
  {
    hide KInv, Links, Entries, Queued, KernelCost, Sum;
    Nil(o, key);
    AppendFlow(k, x, o, key);
    if o >= |k.objs| { Unnamed(k, o); }
  }

  lemma FlowCreateTable(k: Kernel, capacity: nat, o: Id, key: Key)
    ensures Flow(k, CreateTable(capacity), ExecCreateTable(k, capacity), o, key)
  {
    hide Links, Entries, Queued, KernelCost, Sum, TableHolds, TableCost;
    Nil(o, key);
    if 1 <= capacity < UINT32_MAX {
      FreshFlow(k, capacity, o);
      ObjsOnly(k, ExecCreateTable(k, capacity).0, o, key);
    }
  }

  lemma FreshFlow(k: Kernel, capacity: nat, o: Id)
    ensures var k' := k.(tables := k.tables + [Fresh(capacity)]);
            Entries(k', o) == Entries(k, o) && KernelCost(k') == KernelCost(k)
  {
    var t := Fresh(capacity);
    SumZero(EntryHolds(o), t.entries);
    SumZero(InUse(), t.entries);
    SumAppend(TableHolds(o), k.tables, t);
    SumAppend(TableCost(), k.tables, t);
  }

  lemma ObjsOnly(k: Kernel, k': Kernel, o: Id, key: Key)
    requires k'.objs == k.objs
    ensures Links(k', o) == Links(k, o) && Queued(k', key) == Queued(k, key)
  {
  }

  lemma FlowNothing(k: Kernel, task: Task, o: Id, key: Key)
    requires TaskHolds(o)(task) == 0 && TaskRemoves(o)(task) == 0 && TaskCarries(key)(task) == 0
    requires !task.CloseObject?
    ensures TaskCost()(task) > 0 ==> Flow(k, task, (k, []), o, key)
  {
    Nil(o, key);
  }

  /** Every locked region moves the measures as the ledgers need. */
  lemma ExecFlow(k: Kernel, task: Task, o: Id, key: Key)
    requires KInv(k) && EntriesHaveObjects(k) && TaskOk(k, task) && Funded(k, task)
    ensures Flow(k, task, Exec(k, task), o, key)
  {
    hide KInv, EntriesHaveObjects, Flow;
    match task {
      case RemoveHandle(x) => FlowRemoveHandle(k, x, o, key);
      case Release(x) => FlowRelease(k, x, o, key);
      case DisposeHandle(t, h) => FlowDispose(k, t, h, o, key);
      case DupTarget(x, access, origin, dst, token, cont) =>
        FlowDupTarget(k, x, access, origin, dst, token, cont, o, key);
      case SendFinish(c, p, dst, m) => FlowSendFinish(k, c, p, dst, m, o, key);
      case ConnectFinish(port, client, server) => FlowConnectFinish(k, port, client, server, o, key);
      case CloseObject(x) => FlowCloseObject(k, x, o, key);
      case CloseHandle(t, h) => FlowCloseHandle(k, t, h, o, key);
      case CloseAll(t, from) => FlowCloseAll(k, t, from, o, key);
      case SendBegin(c, m) => FlowSendBegin(k, c, m, o, key);
      case Receive(c) => FlowReceive(k, c, o, key);
      case DupSource(src, h, dst, token, access, same, cont) =>
        FlowDupSource(k, src, h, dst, token, access, same, cont, o, key);
      case OpenHandle(t, x, token, access) => FlowOpenHandle(k, t, x, token, access, o, key);
      case Lookup(t, h, access, kind) => FlowLookup(k, t, h, access, kind, o, key);
      case Reference(x) => FlowReference(k, x, o, key);
      case Accept(p) => FlowAccept(k, p, o, key);
      case ConnectBegin(p, options) => FlowConnectBegin(k, p, options, o, key);
      case CreatePair(options) => FlowCreatePair(k, options, o, key);
      case CreatePort(limit, security) =>
        FlowNothing(k, task, o, key);
        FlowCreateObject(k, task, NewObj(Port([], limit, false, 0, [], [], []), security, 1, 1), o, key);
      case CreateSection(security) =>
        FlowNothing(k, task, o, key);
        FlowCreateObject(k, task, NewObj(Section(true), security, 1, 1), o, key);
      case CreateTable(capacity) => FlowCreateTable(k, capacity, o, key);
    }
  }
}
