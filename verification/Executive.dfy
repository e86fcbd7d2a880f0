/**
 * The executive's objects, handles and IPC as one concurrent machine
 * (kernel/executive/object/object.c, kernel/executive/handle/handle.c, kernel/executive/ipc/ipc.c).
 *
 * A `Kernel` is the shared state. A thread is a stack of `Task`s, the continuations of the calls it
 * is inside; its top task is one locked region of the source. `Exec` runs that region atomically and
 * says which tasks the thread goes on with, so a call chain such as
 *   handle close -> last-handle callback -> channel close -> close of a queued handle
 * is a growing and shrinking stack, and any other thread may run between two regions.
 *
 * Fields marked "history" are not read by any step; they record what has happened.
 */
module Executive {
  import opened Status
  import opened AccessCheck
  import opened HandleTables
  import opened RingQueue

  type Id = nat
  type TableId = nat

  /** A handle value in a table. */
  type Key = (nat, nat)

  const PAYLOAD_CAPACITY := 192

  /** `shapeOk` stands for the struct_size, version, unknown-flag and reserved-field comparisons. */
  datatype Msg = Msg(shapeOk: bool, id: nat, payload: seq<nat>, transfers: bool, handle: nat, access: Mask)

  predicate MsgValid(m: Msg) {
    && m.shapeOk
    && |m.payload| <= PAYLOAD_CAPACITY
    && if m.transfers then m.handle != 0 && m.access != {} && m.access <= FULL_CONTROL
       else m.handle == 0 && m.access == {}
  }

  datatype Body =
    | Channel(peer: Option<Id>, owner: TableId, token: Token, queue: seq<Msg>, limit: nat, open: bool,
              peerClosed: bool, signal: nat,
              sent: seq<Msg>, got: seq<Msg>, dropped: seq<Msg>)  // sent, got, dropped: history
    | Port(pending: seq<Id>, limit: nat, closed: bool, signal: nat,
           offered: seq<Id>, accepted: seq<Id>, refused: seq<Id>)     // offered, accepted, refused: history
    | Section(mapped: bool)
  {
    /** The object type has a last-handle callback. */
    predicate HasCallback() { Channel? || Port? }
  }

  /**
   * An object header and its body. `client` is history: the references that callers outside this
   * machine own. `callbackRuns` and `destroyRuns` are history too.
   */
  datatype Obj = Obj(body: Body, security: Option<Descriptor>, refs: nat, handles: nat, disabled: bool,
                     destroyed: bool, client: nat, callbackRuns: nat, destroyRuns: nat)

  /**
   * `transferred`, `delivered` and `disposed` are history: the handles duplicated by sends, handed
   * over by receives, and closed by a rollback or a drain. `faults` counts releases that answered
   * INVALID_STATE.
   */
  datatype Kernel = Kernel(objs: seq<Obj>, tables: seq<Table>, transferred: multiset<Key>,
                           delivered: multiset<Key>, disposed: multiset<Key>, faults: nat)

  /** What a duplication is part of. */
  datatype Cont = Return | IntoSend(channel: Id, peer: Id, msg: Msg)

  datatype Task =
    // Locked regions reached inside calls.
    | RemoveHandle(obj: Id)
    | Release(obj: Id)
    | DisposeHandle(table: TableId, handle: nat)
    | DupTarget(obj: Id, access: Mask, origin: Mask, dst: TableId, token: Token, cont: Cont)
    | SendFinish(channel: Id, peer: Id, dst: TableId, msg: Msg)
    | ConnectFinish(port: Id, client: Id, server: Id)
    // First regions of calls.
    | CloseObject(obj: Id)
    | CloseHandle(table: TableId, handle: nat)
    | CloseAll(table: TableId, from: nat)
    | SendBegin(channel: Id, msg: Msg)
    | Receive(channel: Id)
    | DupSource(src: TableId, handle: nat, dst: TableId, token: Token, access: Mask, same: bool, cont: Cont)
    | OpenHandle(table: TableId, obj: Id, token: Token, access: Mask)
    | Lookup(table: TableId, handle: nat, access: Mask, kind: Kind)
    | Reference(obj: Id)
    | Accept(port: Id)
    | ConnectBegin(port: Id, options: PairOptions)
    | CreatePair(options: PairOptions)
    | CreatePort(limit: nat, security: Option<Descriptor>)
    | CreateSection(security: Option<Descriptor>)
    | CreateTable(capacity: nat)

  /** The expected type of a lookup; NULL is AnyKind. */
  datatype Kind = AnyKind | ChannelKind | PortKind | SectionKind

  datatype PairOptions =
    PairOptions(limit: nat, clientTable: TableId, serverTable: TableId, clientToken: Token, serverToken: Token,
                clientSecurity: Descriptor, serverSecurity: Descriptor)

  // ----- Small pieces of state -----

  function SetObj(k: Kernel, i: Id, x: Obj): Kernel
    requires i < |k.objs|
  {
    k.(objs := k.objs[i := x])
  }

  function SetTable(k: Kernel, t: TableId, x: Table): Kernel
    requires t < |k.tables|
  {
    k.(tables := k.tables[t := x])
  }

  function NewObj(body: Body, security: Option<Descriptor>, refs: nat, client: nat): Obj {
    Obj(body, security, refs, 0, false, false, client, 0, 0)
  }

  function NewChannel(peer: Id, owner: TableId, token: Token, limit: nat): Body {
    Channel(Some(peer), owner, token, [], limit, true, false, 0, [], [], [])
  }

  // ----- object.c -----

  /** zi_object_reference accepts the object. */
  predicate CanReference(x: Obj) { !x.destroyed && x.refs != UINT32_MAX }

  /** zi_object_add_handle accepts the object. */
  predicate CanAddHandle(x: Obj) {
    !x.destroyed && x.handles != UINT32_MAX && x.refs != UINT32_MAX && !x.disabled
  }

  /** zi_object_dereference, and the second region of zi_object_remove_handle. */
  function ExecRelease(k: Kernel, o: Id): (Kernel, seq<Task>)
    requires o < |k.objs|
  {
    var x := k.objs[o];
    if x.destroyed || x.refs == 0 then (k.(faults := k.faults + 1), [])
    else if x.refs - 1 != 0 then (SetObj(k, o, x.(refs := x.refs - 1)), [])
    else if x.handles != 0 then (k.(faults := k.faults + 1), [])
    else (SetObj(k, o, x.(refs := 0, destroyed := true, destroyRuns := x.destroyRuns + 1)), [CloseObject(o)])
  }

  /** The first region of zi_object_remove_handle; the callback runs before the second. */
  function ExecRemoveHandle(k: Kernel, o: Id): (Kernel, seq<Task>)
    requires o < |k.objs|
  {
    var x := k.objs[o];
    if x.destroyed || x.handles == 0 || x.refs == 0 then (k.(faults := k.faults + 1), [])
    else if x.handles - 1 == 0 && x.body.HasCallback() then
      (SetObj(k, o, x.(handles := 0, disabled := true, callbackRuns := x.callbackRuns + 1)),
       [CloseObject(o), Release(o)])
    else (SetObj(k, o, x.(handles := x.handles - 1)), [Release(o)])
  }

  function ExecReference(k: Kernel, o: Id): (Kernel, seq<Task>)
    requires o < |k.objs|
  {
    var x := k.objs[o];
    if CanReference(x) then (SetObj(k, o, x.(refs := x.refs + 1, client := x.client + 1)), []) else (k, [])
  }

  // ----- handle.c -----

  /** The locked region of zi_handle_close. */
  function ExecCloseHandle(k: Kernel, t: TableId, h: nat): (Kernel, seq<Task>)
    requires t < |k.tables|
  {
    var r := Resolve(k.tables[t], h);
    if r.None? then (k, [])
    else
      (SetTable(k, t, Vacate(k.tables[t], r.value)), [RemoveHandle(k.tables[t].entries[r.value].obj.value)])
  }

  /** close_transferred_handle: the same region, remembered as the disposal of a transferred handle. */
  function ExecDispose(k: Kernel, t: TableId, h: nat): (Kernel, seq<Task>)
    requires t < |k.tables|
  {
    var (k1, push) := ExecCloseHandle(k, t, h);
    (k1.(disposed := k1.disposed + multiset{(t, h)}), push)
  }

  /** One locked round of zi_handle_table_close_all. */
  function ExecCloseAll(k: Kernel, t: TableId, from: nat): (Kernel, seq<Task>)
    requires t < |k.tables| && from <= |k.tables[t].entries|
    requires forall i :: 0 <= i < |k.tables[t].entries| && k.tables[t].entries[i].inUse ==>
               k.tables[t].entries[i].obj.Some?
  {
    var closing := k.tables[t].(closing := true);
    var i := FirstInUse(closing.entries, from);
    if i == |closing.entries| then (SetTable(k, t, closing.(swept := true)), [])
    else
      (SetTable(k, t, Vacate(closing, i)),
       [RemoveHandle(closing.entries[i].obj.value), CloseAll(t, i + 1)])
  }

  /** The locked region of zi_handle_open: None when it fails, else the kernel and the handle. */
  function InsertHandle(k: Kernel, t: TableId, o: Id, token: Token, access: Mask, origin: Mask)
    : (r: Option<(Kernel, nat)>)
    requires t < |k.tables| && o < |k.objs|
  {
    var x := k.objs[o];
    var table := k.tables[t];
    var i := FirstFree(table.entries, 0);
    if access == {} || Grant(x.security, token, access).None? || table.closing || i == |table.entries|
       || !CanAddHandle(x) then None
    else
      Some((SetTable(SetObj(k, o, x.(refs := x.refs + 1, handles := x.handles + 1)), t,
                     Fill(table, i, o, access, origin)),
            Encode(i, table.entries[i].generation)))
  }

  function ExecOpenHandle(k: Kernel, t: TableId, o: Id, token: Token, access: Mask): (Kernel, seq<Task>)
    requires t < |k.tables| && o < |k.objs|
  {
    var r := InsertHandle(k, t, o, token, access, access);
    if r.Some? then (r.value.0, []) else (k, [])
  }

  /** reference_handle_entry: the entry and the kernel with the object referenced. */
  function ReferenceEntry(k: Kernel, t: TableId, h: nat): (r: Option<(Kernel, Entry)>)
    requires t < |k.tables|
    ensures r.Some? ==> r.value.1.obj.Some?
  {
    var e := Resolve(k.tables[t], h);
    if k.tables[t].closing || e.None? then None
    else
      var entry := k.tables[t].entries[e.value];
      var o := entry.obj.value;
      if o < |k.objs| && CanReference(k.objs[o])
      then Some((SetObj(k, o, k.objs[o].(refs := k.objs[o].refs + 1)), entry))
      else None
  }

  function KindOf(body: Body): Kind {
    if body.Channel? then ChannelKind else if body.Port? then PortKind else SectionKind
  }

  /** zi_handle_lookup: the reference goes to the caller, or back when access or type do not fit. */
  function ExecLookup(k: Kernel, t: TableId, h: nat, access: Mask, kind: Kind): (Kernel, seq<Task>)
    requires t < |k.tables|
  {
    var r := ReferenceEntry(k, t, h);
    if r.None? then (k, [])
    else
      var o := r.value.1.obj.value;
      if !(access <= r.value.1.access) then (r.value.0, [Release(o)])
      else if kind != AnyKind && KindOf(r.value.0.objs[o].body) != kind then (r.value.0, [Release(o)])
      else
        var x := r.value.0.objs[o];
        (SetObj(r.value.0, o, x.(client := x.client + 1)), [])
  }

  /** What a failed duplication goes on with: zi_ipc_send gives its hold on the peer back. */
  function Abandon(cont: Cont): seq<Task> {
    match cont
    case Return => []
    case IntoSend(_, peer, _) => [Release(peer)]
  }

  /** zi_handle_duplicate up to the target table's lock. */
  function ExecDupSource(k: Kernel, src: TableId, h: nat, dst: TableId, token: Token, access: Mask, same: bool,
                         cont: Cont): (Kernel, seq<Task>)
    requires src < |k.tables|
  {
    if !same && access == {} then (k, Abandon(cont))
    else
      var r := ReferenceEntry(k, src, h);
      if r.None? then (k, Abandon(cont))
      else
        var entry := r.value.1;
        var wanted := if same then entry.access else access;
        if !(wanted <= entry.access) then (r.value.0, [Release(entry.obj.value)] + Abandon(cont))
        else (r.value.0, [DupTarget(entry.obj.value, wanted, entry.origin, dst, token, cont)])
  }

  /** zi_handle_open inside zi_handle_duplicate, then the release of the temporary reference. */
  function ExecDupTarget(k: Kernel, o: Id, access: Mask, origin: Mask, dst: TableId, token: Token, cont: Cont)
    : (Kernel, seq<Task>)
    requires o < |k.objs| && dst < |k.tables|
  {
    var r := InsertHandle(k, dst, o, token, access, origin);
    if r.None? then (k, [Release(o)] + Abandon(cont))
    else
      match cont
      case Return => (r.value.0, [Release(o)])
      case IntoSend(c, p, m) =>
        (r.value.0.(transferred := r.value.0.transferred + multiset{(dst, r.value.1)}),
         [Release(o), SendFinish(c, p, dst, m.(handle := r.value.1))])
  }

  // ----- ipc.c -----

  /** zi_ipc_send up to its first lock release: the peer is referenced. */
  function ExecSendBegin(k: Kernel, c: Id, m: Msg): (Kernel, seq<Task>)
    requires c < |k.objs| && k.objs[c].body.Channel?
  {
    var ch := k.objs[c].body;
    if !MsgValid(m) || !ch.open || ch.peerClosed || ch.peer.None? then (k, [])
    else
      var p := ch.peer.value;
      if p < |k.objs| && k.objs[p].body.Channel? && k.objs[p].body.open && CanReference(k.objs[p]) then
        var peer := k.objs[p];
        var k1 := SetObj(k, p, peer.(refs := peer.refs + 1));
        if m.transfers then
          (k1, [DupSource(ch.owner, m.handle, peer.body.owner, peer.body.token, m.access, false, IntoSend(c, p, m))])
        else (k1, [SendFinish(c, p, peer.body.owner, m)])
      else (k, [])
  }

  /** The last region of zi_ipc_send: enqueue, or roll the duplicate back. */
  function ExecSendFinish(k: Kernel, c: Id, p: Id, dst: TableId, m: Msg): (Kernel, seq<Task>)
    requires c < |k.objs| && k.objs[c].body.Channel?
    requires p < |k.objs| && k.objs[p].body.Channel?
  {
    var ch := k.objs[c].body;
    var peer := k.objs[p];
    var peerClosed := !ch.open || ch.peerClosed || ch.peer != Some(p) || !peer.body.open;
    if peerClosed || |peer.body.queue| == peer.body.limit then
      (k, (if m.transfers then [DisposeHandle(dst, m.handle)] else []) + [Release(p)])
    else
      var body := peer.body.(queue := peer.body.queue + [m], signal := |peer.body.queue| + 1,
                             sent := peer.body.sent + [m]);
      (SetObj(k, p, peer.(body := body)), [Release(p)])
  }

  function ExecReceive(k: Kernel, c: Id): (Kernel, seq<Task>)
    requires c < |k.objs| && k.objs[c].body.Channel?
  {
    var x := k.objs[c];
    var ch := x.body;
    if ch.queue == [] then (k, [])
    else
      var m := ch.queue[0];
      var rest := ch.queue[1..];
      var body := ch.(queue := rest, got := ch.got + [m],
                      signal := if rest != [] || ch.peerClosed then |rest| + 1 else 0);
      var k1 := SetObj(k, c, x.(body := body));
      (if m.transfers then k1.(delivered := k1.delivered + multiset{(ch.owner, m.handle)}) else k1, [])
  }

  /** The handles that a drained queue carries, each to be closed in the owner's table. */
  function Disposals(owner: TableId, queue: seq<Msg>): seq<Task> {
    if queue == [] then []
    else (if queue[0].transfers then [DisposeHandle(owner, queue[0].handle)] else []) + Disposals(owner, queue[1..])
  }

  /** zi_ipc_channel_close. */
  function ExecCloseChannel(k: Kernel, c: Id): (Kernel, seq<Task>)
    requires c < |k.objs| && k.objs[c].body.Channel?
  {
    var x := k.objs[c];
    var ch := x.body;
    if !ch.open then (k, [])
    else
      var closed := ch.(open := false, queue := [], peer := None, signal := 1, dropped := ch.queue);
      var k1 := SetObj(k, c, x.(body := closed));
      var drops := Disposals(ch.owner, ch.queue);
      if ch.peer.None? || ch.peer.value >= |k.objs| || !k1.objs[ch.peer.value].body.Channel? then (k1, drops)
      else
        var p := ch.peer.value;
        var y := k1.objs[p];
        var peerHolds := y.body.peer == Some(c);
        var severed := y.body.(peerClosed := true, signal := 1, peer := if peerHolds then None else y.body.peer);
        (SetObj(k1, p, y.(body := severed)),
         drops + [Release(p)] + if peerHolds then [Release(c)] else [])
  }

  /** Each pending endpoint is closed, then released. */
  function Abandonments(pending: seq<Id>): seq<Task> {
    if pending == [] then []
    else [CloseObject(pending[0]), Release(pending[0])] + Abandonments(pending[1..])
  }

  /** zi_ipc_port_close. */
  function ExecClosePort(k: Kernel, p: Id): (Kernel, seq<Task>)
    requires p < |k.objs| && k.objs[p].body.Port?
  {
    var x := k.objs[p];
    if x.body.closed then (k, [])
    else
      var closed := x.body.(pending := [], closed := true, signal := 1, refused := x.body.pending);
      (SetObj(k, p, x.(body := closed)), Abandonments(x.body.pending))
  }

  /** The destroy routine and the last-handle callback of an object's type. */
  function ExecCloseObject(k: Kernel, o: Id): (Kernel, seq<Task>)
    requires o < |k.objs|
  {
    match k.objs[o].body
    case Channel(_, _, _, _, _, _, _, _, _, _, _) => ExecCloseChannel(k, o)
    case Port(_, _, _, _, _, _, _) => ExecClosePort(k, o)
    case Section(_) => (SetObj(k, o, k.objs[o].(body := Section(false))), [])
  }

  predicate OptionsValid(k: Kernel, options: PairOptions) {
    && 1 <= options.limit <= QUEUE_CAPACITY
    && options.clientTable < |k.tables|
    && options.serverTable < |k.tables|
    && TokenValid(options.clientToken)
    && TokenValid(options.serverToken)
  }

  /**
   * zi_ipc_channel_pair_initialise: two fresh channels, each referenced by its creator and by its
   * peer. `extra` more references to the server are taken before anybody else can see the pair.
   */
  function AddPair(k: Kernel, options: PairOptions, client: nat, extra: nat): Kernel {
    var n := |k.objs|;
    k.(objs := k.objs
         + [NewObj(NewChannel(n + 1, options.clientTable, options.clientToken, options.limit),
                   Some(options.clientSecurity), 2, client)]
         + [NewObj(NewChannel(n, options.serverTable, options.serverToken, options.limit),
                   Some(options.serverSecurity), 2 + extra, client)])
  }

  function ExecCreatePair(k: Kernel, options: PairOptions): (Kernel, seq<Task>) {
    if OptionsValid(k, options) then (AddPair(k, options, 1, 0), []) else (k, [])
  }

  /** zi_ipc_connect before the port's lock: the pair, and a reference for the port's queue. */
  function ExecConnectBegin(k: Kernel, port: Id, options: PairOptions): (Kernel, seq<Task>) {
    if OptionsValid(k, options)
    then (AddPair(k, options, 0, 1), [ConnectFinish(port, |k.objs|, |k.objs| + 1)])
    else (k, [])
  }

  /** zi_ipc_connect under the port's lock, and its failure path. */
  function ExecConnectFinish(k: Kernel, port: Id, client: Id, server: Id): (Kernel, seq<Task>)
    requires port < |k.objs| && k.objs[port].body.Port?
    requires client < |k.objs| && server < |k.objs| && client != server && client != port && server != port
  {
    var x := k.objs[port];
    if x.body.closed || |x.body.pending| == x.body.limit then
      (k, [CloseObject(client), Release(server), Release(client), Release(server)])
    else
      var body := x.body.(pending := x.body.pending + [server], signal := |x.body.pending| + 1,
                           offered := x.body.offered + [server]);
      var k1 := SetObj(k, port, x.(body := body));
      var k2 := SetObj(k1, client, k1.objs[client].(client := k1.objs[client].client + 1));
      (SetObj(k2, server, k2.objs[server].(client := k2.objs[server].client + 1)), [])
  }

  /** zi_ipc_accept: the queue's reference becomes the caller's. */
  function ExecAccept(k: Kernel, port: Id): (Kernel, seq<Task>)
    requires port < |k.objs| && k.objs[port].body.Port?
  {
    var x := k.objs[port];
    if x.body.pending == [] then (k, [])
    else
      var c := x.body.pending[0];
      var rest := x.body.pending[1..];
      var k1 := SetObj(k, port, x.(body := x.body.(pending := rest, signal := |rest|,
                                                      accepted := x.body.accepted + [c])));
      if c < |k1.objs| then (SetObj(k1, c, k1.objs[c].(client := k1.objs[c].client + 1)), []) else (k1, [])
  }

  function ExecCreatePort(k: Kernel, limit: nat, security: Option<Descriptor>): (Kernel, seq<Task>) {
    if 1 <= limit <= QUEUE_CAPACITY && security.Some?
    then (k.(objs := k.objs + [NewObj(Port([], limit, false, 0, [], [], []), security, 1, 1)]), [])
    else (k, [])
  }

  function ExecCreateSection(k: Kernel, security: Option<Descriptor>): (Kernel, seq<Task>) {
    if security.Some? then (k.(objs := k.objs + [NewObj(Section(true), security, 1, 1)]), []) else (k, [])
  }

  function ExecCreateTable(k: Kernel, capacity: nat): (Kernel, seq<Task>) {
    if 1 <= capacity < UINT32_MAX then (k.(tables := k.tables + [Fresh(capacity)]), []) else (k, [])
  }

  // ----- What tasks may assume -----

  ghost predicate IsChannel(k: Kernel, o: Id) { o < |k.objs| && k.objs[o].body.Channel? }

  ghost predicate IsPort(k: Kernel, o: Id) { o < |k.objs| && k.objs[o].body.Port? }

  ghost predicate Issued(k: Kernel, t: TableId, h: nat) { t < |k.tables| && h in k.tables[t].issued }

  ghost predicate ContOk(k: Kernel, dst: TableId, cont: Cont) {
    cont.IntoSend? ==>
      && IsChannel(k, cont.channel) && IsChannel(k, cont.peer) && k.objs[cont.peer].body.owner == dst
      && cont.msg.transfers
  }

  /** The facts about the kernel that a pending task relies on. */
  ghost predicate TaskOk(k: Kernel, task: Task) {
    match task
    case RemoveHandle(o) => o < |k.objs|
    case Release(o) => o < |k.objs|
    case DisposeHandle(t, h) => Issued(k, t, h)
    case DupTarget(o, access, origin, dst, _, cont) =>
      o < |k.objs| && dst < |k.tables| && access <= origin && ContOk(k, dst, cont)
    case SendFinish(c, p, dst, m) =>
      && IsChannel(k, c) && IsChannel(k, p) && k.objs[p].body.owner == dst && dst < |k.tables|
      && (m.transfers ==> Issued(k, dst, m.handle))
    case ConnectFinish(port, client, server) =>
      IsPort(k, port) && IsChannel(k, client) && IsChannel(k, server) && client != server
    case CloseObject(o) => o < |k.objs|
    case CloseHandle(t, _) => t < |k.tables|
    case CloseAll(t, from) =>
      && t < |k.tables| && from <= |k.tables[t].entries|
      && (from > 0 ==>
            k.tables[t].closing && forall j :: 0 <= j < from ==> !k.tables[t].entries[j].inUse)
    case SendBegin(c, _) => IsChannel(k, c)
    case Receive(c) => IsChannel(k, c)
    case DupSource(src, _, dst, _, _, _, cont) => src < |k.tables| && dst < |k.tables| && ContOk(k, dst, cont)
    case OpenHandle(t, o, _, _) => t < |k.tables| && o < |k.objs|
    case Lookup(t, _, _, _) => t < |k.tables|
    case Reference(o) => o < |k.objs|
    case Accept(p) => IsPort(k, p)
    case ConnectBegin(p, _) => IsPort(k, p)
    case CreatePair(_) => true
    case CreatePort(_, _) => true
    case CreateSection(_) => true
    case CreateTable(_) => true
  }

  ghost predicate EntriesHaveObjects(k: Kernel) {
    forall t :: 0 <= t < |k.tables| ==> TableValid(k.tables[t])
  }

  /** Runs one locked region. */
  ghost function Exec(k: Kernel, task: Task): (Kernel, seq<Task>)
    requires EntriesHaveObjects(k)
    requires TaskOk(k, task)
  {
    match task
    case RemoveHandle(o) => ExecRemoveHandle(k, o)
    case Release(o) => ExecRelease(k, o)
    case DisposeHandle(t, h) => ExecDispose(k, t, h)
    case DupTarget(o, access, origin, dst, token, cont) => ExecDupTarget(k, o, access, origin, dst, token, cont)
    case SendFinish(c, p, dst, m) => ExecSendFinish(k, c, p, dst, m)
    case ConnectFinish(port, client, server) => ExecConnectFinish(k, port, client, server)
    case CloseObject(o) => ExecCloseObject(k, o)
    case CloseHandle(t, h) => ExecCloseHandle(k, t, h)
    case CloseAll(t, from) =>
      assert TableValid(k.tables[t]);
      assert forall i :: 0 <= i < |k.tables[t].entries| ==> EntryValid(k.tables[t].entries[i]);
      ExecCloseAll(k, t, from)
    case SendBegin(c, m) => ExecSendBegin(k, c, m)
    case Receive(c) => ExecReceive(k, c)
    case DupSource(src, h, dst, token, access, same, cont) =>
      ExecDupSource(k, src, h, dst, token, access, same, cont)
    case OpenHandle(t, o, token, access) => ExecOpenHandle(k, t, o, token, access)
    case Lookup(t, h, access, kind) => ExecLookup(k, t, h, access, kind)
    case Reference(o) => ExecReference(k, o)
    case Accept(p) => ExecAccept(k, p)
    case ConnectBegin(p, options) => ExecConnectBegin(k, p, options)
    case CreatePair(options) => ExecCreatePair(k, options)
    case CreatePort(limit, security) => ExecCreatePort(k, limit, security)
    case CreateSection(security) => ExecCreateSection(k, security)
    case CreateTable(capacity) => ExecCreateTable(k, capacity)
  }

  // ----- The machine -----

  datatype State = State(k: Kernel, threads: seq<seq<Task>>)

  /** A thread runs, a caller starts a call, or a caller gives up a reference that it owns. */
  datatype Action = Step(thread: nat) | Call(task: Task) | Drop(obj: Id)

  const INITIAL := State(Kernel([], [], multiset{}, multiset{}, multiset{}, 0), [])

  /** The tasks that callers may start: the public entry points. */
  predicate IsCall(k: Kernel, task: Task) {
    match task
    case CloseObject(o) => o < |k.objs| && !k.objs[o].body.Section?
    case CloseAll(_, from) => from == 0
    case DupSource(_, _, _, _, _, _, cont) => cont.Return?
    case CloseHandle(_, _) => true
    case SendBegin(_, _) => true
    case Receive(_) => true
    case OpenHandle(_, _, _, _) => true
    case Lookup(_, _, _, _) => true
    case Reference(_) => true
    case Accept(_) => true
    case ConnectBegin(_, _) => true
    case CreatePair(_) => true
    case CreatePort(_, _) => true
    case CreateSection(_) => true
    case CreateTable(_) => true
    case _ => false
  }

  /**
   * The one discipline asked of callers: they release only references that they own. Handle values
   * may be guessed, and any object may be named in any call.
   */
  ghost predicate Enabled(s: State, a: Action) {
    match a
    case Step(i) =>
      i < |s.threads| && s.threads[i] != [] && EntriesHaveObjects(s.k) && TaskOk(s.k, s.threads[i][0])
    case Call(task) => IsCall(s.k, task) && TaskOk(s.k, task)
    case Drop(o) => o < |s.k.objs| && s.k.objs[o].client > 0
  }

  ghost function Do(s: State, a: Action): State
    requires Enabled(s, a)
  {
    match a
    case Step(i) =>
      var (k, push) := Exec(s.k, s.threads[i][0]);
      State(k, s.threads[i := push + s.threads[i][1..]])
    case Call(task) => s.(threads := s.threads + [[task]])
    case Drop(o) =>
      State(SetObj(s.k, o, s.k.objs[o].(client := s.k.objs[o].client - 1)), s.threads + [[Release(o)]])
  }

  ghost predicate Run(s: State, actions: seq<Action>, u: State)
    decreases |actions|
  {
    if actions == [] then u == s
    else Enabled(s, actions[0]) && Run(Do(s, actions[0]), actions[1..], u)
  }
}
