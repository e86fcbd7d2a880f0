/**
 * What each call of the executive other than send does when no other thread runs while it does, told by
 * what it leaves: the objects it makes, the handles it opens and closes, the references it takes.
 */
module ExecutiveCalls {
  import opened Status
  import opened AccessCheck
  import opened HandleTables
  import opened RingQueue
  import opened Sums
  import opened Executive
  import opened ExecutiveInvariant
  import opened ExecutiveLedger
  import opened ExecutiveTheorems
  import opened ExecutiveSend

  // Running a thread to the end of a part of its stack.

  /** A call that is one locked region. */
  lemma OneRegion(s: State, i: nat, task: Task)
    requires Inv(s) && i < |s.threads| && s.threads[i] == [task]
    ensures EntriesHaveObjects(s.k) && TaskOk(s.k, task) && KInv(s.k)
    ensures Exec(s.k, task).1 == [] ==> Alone(s, i).k == Exec(s.k, task).0
  {
    hide Inv, Alone, Exec, TaskOk, EntriesHaveObjects, KInv;
    assert s == At(s, i, s.k, [task]);
    InvKernel(s);
    Advance(s, i, s.k, [task]);
    var (k', push) := Exec(s.k, task);
    if push == [] {
      assert push + [task][1..] == [];
      Returned(s, i, k');
    }
  }

  /** Two regions, of which the second gives back a reference that is not the last. */
  lemma AndGivesBack(s: State, i: nat, task: Task, o: Id, u: Kernel)
    requires Inv(s) && i < |s.threads| && s.threads[i] == [task]
    requires EntriesHaveObjects(s.k) && TaskOk(s.k, task) && o < |u.objs| && u.objs[o].refs >= 1
    requires Exec(s.k, task) == (Counted(u, o, 1), [Release(o)])
    ensures Alone(s, i).k == u
  {
    hide Inv, Alone, Exec, TaskOk, EntriesHaveObjects;
    assert s == At(s, i, s.k, [task]);
    Advance(s, i, s.k, [task]);
    assert [Release(o)] + [task][1..] == [Release(o)] + [];
    GiveBack(s, i, Counted(u, o, 1), o, [], u);
    Returned(s, i, u);
  }

  /** The part of a stack on top runs to its end before the rest goes on, and nothing goes back. */
  lemma {:induction false} RunsPart(s: State, i: nat, k: Kernel, top: seq<Task>, rest: seq<Task>) returns (k': Kernel)
    requires i < |s.threads| && Inv(At(s, i, k, top + rest))
    ensures Inv(At(s, i, k', rest)) && Evolves(k, k')
    ensures Alone(At(s, i, k, top + rest), i) == Alone(At(s, i, k', rest), i)
    decreases Potential(At(s, i, k, top + rest))
  {
    hide Inv, Exec, Evolves, Potential, Alone, Enabled, Do;
    if top == [] {
      EvolvesReflexive(k);
      assert top + rest == rest;
      return k;
    }
    var u := At(s, i, k, top + rest);
    CanGoOn(u, i);
    StepKeeps(u, i);
    Advance(s, i, k, top + rest);
    DoEvolves(u, Step(i));
    var (k1, push) := Exec(k, top[0]);
    assert push + (top + rest)[1..] == (push + top[1..]) + rest;
    StepIs(s, i, k, top + rest);
    k' := RunsPart(s, i, k1, push + top[1..], rest);
    EvolvesTransitive(k, k1, k');
  }

  lemma StepIs(s: State, i: nat, k: Kernel, stack: seq<Task>)
    requires i < |s.threads| && stack != [] && Enabled(At(s, i, k, stack), Step(i))
    ensures EntriesHaveObjects(k) && TaskOk(k, stack[0])
    ensures var (k', push) := Exec(k, stack[0]); Do(At(s, i, k, stack), Step(i)) == At(s, i, k', push + stack[1..])
  {
    hide Exec;
  }

  /** The messages that are taken: at most 192 bytes, and a handle with some of the eight rights or none at all. */
  lemma MessagesAre(m: Msg)
    ensures MsgValid(m) <==>
      && m.shapeOk && |m.payload| <= 192
      && (m.transfers <==> m.handle > 0) && (m.transfers <==> exists bit :: bit in m.access)
      && forall bit :: bit in m.access ==> bit <= 7
  {
    assert m.access != {} <==> exists bit :: bit in m.access;
  }

  // Making channels, ports, sections and tables.

  /** A channel that nothing has happened to. */
  ghost predicate Endpoint(
    x: Obj, peer: Id, table: TableId, token: Token, security: Descriptor, limit: nat, refs: nat, client: nat)
  {
    && x.body == Channel(Some(peer), table, token, [], limit, true, false, 0, [], [], [])
    && x.security == Some(security) && x.refs == refs && x.client == client && x.handles == 0
    && !x.disabled && !x.destroyed && x.callbackRuns == 0 && x.destroyRuns == 0
  }

  /** Of two new objects the first is the client's end, with its table, token and security, the second the server's. */
  ghost predicate PairMade(k: Kernel, o: PairOptions, u: Kernel, serverRefs: nat, client: nat) {
    var n := |k.objs|;
    && |u.objs| == n + 2 && u == k.(objs := u.objs)
    && Endpoint(u.objs[n], n + 1, o.clientTable, o.clientToken, o.clientSecurity, o.limit, 2, client)
    && Endpoint(u.objs[n + 1], n, o.serverTable, o.serverToken, o.serverSecurity, o.limit, serverRefs, client)
  }

  ghost predicate Wanted(k: Kernel, o: PairOptions) {
    && 1 <= o.limit <= QUEUE_CAPACITY && o.clientTable < |k.tables| && o.serverTable < |k.tables|
    && TokenValid(o.clientToken) && TokenValid(o.serverToken)
  }

  lemma AddedPair(k: Kernel, o: PairOptions, client: nat, extra: nat)
    ensures var u := AddPair(k, o, client, extra);
            PairMade(k, o, u, 2 + extra, client) && u.objs[..|k.objs|] == k.objs
  {
  }

  /** Creating a pair makes its two ends and changes nothing else; with bad options it does nothing. */
  lemma CreatePairAlone(s: State, i: nat, o: PairOptions)
    requires Inv(s) && i < |s.threads| && s.threads[i] == [CreatePair(o)]
    ensures var u := Alone(s, i).k;
            if Wanted(s.k, o) then PairMade(s.k, o, u, 2, 1) && u.objs[..|s.k.objs|] == s.k.objs else u == s.k
  {
    hide Inv, Alone, AddPair, PairMade, TokenValid, KInv, EntriesHaveObjects;
    OneRegion(s, i, CreatePair(o));
    AddedPair(s.k, o, 1, 0);
  }

  lemma CreateOthersAlone(s: State, i: nat, task: Task)
    requires Inv(s) && i < |s.threads| && s.threads[i] == [task] && (task.CreatePort? || task.CreateSection? || task.CreateTable?)
    ensures var k, u := s.k, Alone(s, i).k;
            match task
            case CreatePort(limit, security) =>
              if 1 <= limit <= QUEUE_CAPACITY && security.Some?
              then u == k.(objs := k.objs + [Obj(Port([], limit, false, 0, [], [], []), security, 1, 0, false, false, 1, 0, 0)])
              else u == k
            case CreateSection(security) =>
              if security.Some? then u == k.(objs := k.objs + [Obj(Section(true), security, 1, 0, false, false, 1, 0, 0)]) else u == k
            case CreateTable(capacity) =>
              if 1 <= capacity < UINT32_MAX
              then u == k.(tables := u.tables) && |u.tables| == |k.tables| + 1 && u.tables[..|k.tables|] == k.tables
                   && EmptyTable(u.tables[|k.tables|], capacity)
              else u == k
            case _ => true
  {
    hide Inv, Alone, KInv, EntriesHaveObjects;
    OneRegion(s, i, task);
  }

  ghost predicate EmptyTable(t: Table, capacity: nat) {
    && |t.entries| == capacity && t.active == 0 && !t.closing && t.issued == {}
    && forall j :: 0 <= j < capacity ==> !t.entries[j].inUse && t.entries[j].obj.None? && t.entries[j].generation == 1
  }

  // Connecting and accepting.

  ghost predicate PortTakes(x: Obj) {
    x.body.Port? && !x.body.closed && |x.body.pending| != x.body.limit
  }

  /** A channel that came to nothing. */
  ghost predicate Undone(x: Obj) {
    x.body.Channel? && !x.body.open && x.body.queue == [] && x.body.peer.None? && x.refs == 0 && x.destroyed && x.client == 0
  }

  /**
   * A connection to a port that takes it leaves the server's end last in the port's queue, with both
   * ends the caller's; one to a port that does not leaves both ends destroyed and all else as it was.
   */
  ghost predicate ConnectOutcome(k: Kernel, port: Id, o: PairOptions, u: Kernel)
    requires IsPort(k, port)
  {
    var n, x := |k.objs|, k.objs[port];
    if !Wanted(k, o) then u == k
    else if PortTakes(x) then
      && PairMade(k, o, u, 3, 1)
      && u.objs[..n] == k.objs[port := x.(body := x.body.(pending := x.body.pending + [n + 1], signal := |x.body.pending| + 1,
                                                           offered := x.body.offered + [n + 1]))]
    else
      && |u.objs| == n + 2 && u == k.(objs := u.objs) && u.objs[..n] == k.objs && Undone(u.objs[n]) && Undone(u.objs[n + 1])
  }

  function ClosedBody(b: Body): Body
    requires b.Channel?
  {
    if !b.open then b else b.(open := false, queue := [], peer := None, signal := 1, dropped := b.queue)
  }

  function Ended(x: Obj): Obj
    requires x.body.Channel?
  {
    x.(refs := 0, destroyed := true, destroyRuns := x.destroyRuns + 1, body := ClosedBody(x.body))
  }

  /** The last reference to a channel without a peer and without messages. */
  lemma LastRelease(s: State, i: nat, k: Kernel, o: Id, rest: seq<Task>, k': Kernel)
    requires i < |s.threads| && Inv(At(s, i, k, [Release(o)] + rest)) && IsChannel(k, o)
    requires k.objs[o].refs == 1 && k.objs[o].handles == 0 && k.objs[o].body.peer.None? && k.objs[o].body.queue == []
    requires k' == SetObj(k, o, Ended(k.objs[o]))
    ensures Inv(At(s, i, k', rest)) && Alone(At(s, i, k, [Release(o)] + rest), i) == Alone(At(s, i, k', rest), i)
  {
    hide Alone, KInv, EntriesHaveObjects, Inv, BodyOk;
    var x := k.objs[o];
    Living(s, i, k, [Release(o)] + rest, o);
    Advance(s, i, k, [Release(o)] + rest);
    var k1 := SetObj(k, o, x.(refs := 0, destroyed := true, destroyRuns := x.destroyRuns + 1));
    assert Exec(k, Release(o)) == (k1, [CloseObject(o)]);
    assert [CloseObject(o)] + ([Release(o)] + rest)[1..] == [CloseObject(o)] + rest;
    Advance(s, i, k1, [CloseObject(o)] + rest);
    ClosesAlone(k, o, k1);
    assert [] + ([CloseObject(o)] + rest)[1..] == rest;
  }

  lemma ClosesAlone(k: Kernel, o: Id, k1: Kernel)
    requires IsChannel(k, o) && k.objs[o].body.peer.None? && k.objs[o].body.queue == []
    requires k1 == SetObj(k, o, k.objs[o].(refs := 0, destroyed := true, destroyRuns := k.objs[o].destroyRuns + 1))
    ensures ExecCloseObject(k1, o) == (SetObj(k, o, Ended(k.objs[o])), [])
  {
    var x := k1.objs[o];
    assert Disposals(x.body.owner, x.body.queue) == [];
    assert k1.objs[o := Ended(k.objs[o])] == k.objs[o := Ended(k.objs[o])];
    if !x.body.open {
      assert x == Ended(k.objs[o]);
      assert k1.objs == k.objs[o := x];
    }
  }

  lemma ConnectTaken(s: State, i: nat, k: Kernel, port: Id, o: PairOptions)
    requires i < |s.threads| && Inv(At(s, i, k, [ConnectBegin(port, o)])) && IsPort(k, port) && Wanted(k, o)
    requires PortTakes(k.objs[port])
    ensures ConnectOutcome(k, port, o, Alone(At(s, i, k, [ConnectBegin(port, o)]), i).k)
  {
    hide Inv, Alone, KInv, EntriesHaveObjects, TokenValid;
    var n := |k.objs|;
    var k1, finish := AddPair(k, o, 0, 1), ConnectFinish(port, n, n + 1);
    Advance(s, i, k, [ConnectBegin(port, o)]);
    assert [finish] + [ConnectBegin(port, o)][1..] == [finish];
    Advance(s, i, k1, [finish]);
    var (u, push) := Exec(k1, finish);
    assert push == [] && [] + [finish][1..] == [];
    Returned(s, i, u);
    assert u.objs[..n] == k.objs[port := u.objs[port]];
  }

  /** What is left of a pair once its client's end is closed. */
  lemma PairClosed(k: Kernel, o: PairOptions)
    ensures var n, k1 := |k.objs|, AddPair(k, o, 0, 1);
            var c, d := k1.objs[n], k1.objs[n + 1];
            var k2 := k1.(objs := k1.objs[n := c.(body := ClosedBody(c.body))]
                                         [n + 1 := d.(body := d.body.(peerClosed := true, signal := 1, peer := None))]);
            ExecCloseChannel(k1, n) == (k2, [Release(n + 1), Release(n)])
  {
    var n, k1 := |k.objs|, AddPair(k, o, 0, 1);
    assert Disposals(o.clientTable, []) == [];
    assert [] + [Release(n + 1)] + [Release(n)] == [Release(n + 1), Release(n)];
  }

  lemma ConnectRefused(s: State, i: nat, k: Kernel, port: Id, o: PairOptions)
    requires i < |s.threads| && Inv(At(s, i, k, [ConnectBegin(port, o)])) && IsPort(k, port) && Wanted(k, o)
    requires !PortTakes(k.objs[port])
    ensures ConnectOutcome(k, port, o, Alone(At(s, i, k, [ConnectBegin(port, o)]), i).k)
  {
    hide Inv, Alone, KInv, EntriesHaveObjects, TokenValid, ExecCloseChannel;
    var n := |k.objs|;
    var k1, finish := AddPair(k, o, 0, 1), ConnectFinish(port, n, n + 1);
    Advance(s, i, k, [ConnectBegin(port, o)]);
    assert [finish] + [ConnectBegin(port, o)][1..] == [finish];
    Advance(s, i, k1, [finish]);
    var back := [CloseObject(n), Release(n + 1), Release(n), Release(n + 1)];
    assert Exec(k1, finish) == (k1, back) && back + [finish][1..] == back;
    Advance(s, i, k1, back);
    PairClosed(k, o);
    var k2 := ExecCloseChannel(k1, n).0;
    assert [Release(n + 1), Release(n)] + back[1..] == Releases(n);
    ReleasesUndo(s, i, k2, n);
  }

  function Releases(n: Id): seq<Task> { [Release(n + 1), Release(n), Release(n + 1), Release(n), Release(n + 1)] }

  lemma ReleasesUndo(s: State, i: nat, k: Kernel, n: Id)
    requires i < |s.threads| && n + 2 == |k.objs| && Inv(At(s, i, k, Releases(n)))
    requires IsChannel(k, n) && IsChannel(k, n + 1)
    requires k.objs[n].refs == 2 && k.objs[n].handles == 0 && k.objs[n].client == 0 && k.objs[n].body.peer.None?
    requires k.objs[n + 1].refs == 3 && k.objs[n + 1].handles == 0 && k.objs[n + 1].client == 0 && k.objs[n + 1].body.peer.None?
    requires k.objs[n].body.queue == k.objs[n + 1].body.queue == []
    ensures var u := Alone(At(s, i, k, Releases(n)), i).k;
            |u.objs| == n + 2 && u == k.(objs := u.objs) && u.objs[..n] == k.objs[..n] && Undone(u.objs[n]) && Undone(u.objs[n + 1])
  {
    hide Inv, Alone;
    var r, q := Release(n), Release(n + 1);
    assert Releases(n) == [q] + [r, q, r, q];
    var k1 := SetObj(k, n + 1, k.objs[n + 1].(refs := 2));
    GiveBack(s, i, k, n + 1, [r, q, r, q], k1);
    assert [r, q, r, q] == [r] + [q, r, q];
    var k2 := SetObj(k1, n, k1.objs[n].(refs := 1));
    GiveBack(s, i, k1, n, [q, r, q], k2);
    assert [q, r, q] == [q] + [r, q];
    var k3 := SetObj(k2, n + 1, k2.objs[n + 1].(refs := 1));
    GiveBack(s, i, k2, n + 1, [r, q], k3);
    assert [r, q] == [r] + [q];
    var k4 := SetObj(k3, n, Ended(k3.objs[n]));
    LastRelease(s, i, k3, n, [q], k4);
    assert [q] == [q] + [];
    var u := SetObj(k4, n + 1, Ended(k4.objs[n + 1]));
    LastRelease(s, i, k4, n + 1, [], u);
    Returned(s, i, u);
  }

  /** A whole connect. */
  lemma ConnectAlone(s: State, i: nat, port: Id, o: PairOptions)
    requires Inv(s) && i < |s.threads| && s.threads[i] == [ConnectBegin(port, o)]
    ensures IsPort(s.k, port) && ConnectOutcome(s.k, port, o, Alone(s, i).k)
  {
    hide Inv, Alone, ConnectOutcome, KInv, EntriesHaveObjects, PortTakes, TokenValid;
    OneRegion(s, i, ConnectBegin(port, o));
    assert s == At(s, i, s.k, [ConnectBegin(port, o)]);
    if !Wanted(s.k, o) {
      Unwanted(s.k, port, o);
    } else if PortTakes(s.k.objs[port]) {
      ConnectTaken(s, i, s.k, port, o);
    } else {
      ConnectRefused(s, i, s.k, port, o);
    }
  }

  lemma Unwanted(k: Kernel, port: Id, o: PairOptions)
    requires IsPort(k, port) && !Wanted(k, o)
    ensures ExecConnectBegin(k, port, o) == (k, []) && ConnectOutcome(k, port, o, k)
  {
    hide TokenValid;
  }

  /** The kernels agree but for some objects. */
  ghost predicate OnlyObjects(k: Kernel, u: Kernel, changed: set<Id>) {
    && |u.objs| == |k.objs| && u == k.(objs := u.objs)
    && forall j :: 0 <= j < |k.objs| && j !in changed ==> u.objs[j] == k.objs[j]
  }

  /** Accepting takes the channel that has waited longest, which becomes the caller's; without one nothing happens. */
  ghost predicate AcceptOutcome(k: Kernel, port: Id, u: Kernel)
    requires IsPort(k, port)
  {
    var x := k.objs[port];
    if x.body.pending == [] then u == k
    else
      var c, rest := x.body.pending[0], x.body.pending[1..];
      && c < |k.objs| && OnlyObjects(k, u, {port, c})
      && u.objs[port] == x.(body := x.body.(pending := rest, signal := |rest|, accepted := x.body.accepted + [c]))
      && u.objs[c] == k.objs[c].(client := k.objs[c].client + 1)
  }

  lemma AcceptAlone(s: State, i: nat, port: Id)
    requires Inv(s) && i < |s.threads| && s.threads[i] == [Accept(port)]
    ensures IsPort(s.k, port) && AcceptOutcome(s.k, port, Alone(s, i).k)
  {
    hide Inv, Alone, KInv, EntriesHaveObjects;
    OneRegion(s, i, Accept(port));
    InvObj(s.k, port);
  }

  /** A receive takes the message that has waited longest, and the handle in it is the receiver's from then on. */
  ghost predicate ReceiveOutcome(k: Kernel, c: Id, u: Kernel)
    requires IsChannel(k, c)
  {
    var x := k.objs[c];
    if x.body.queue == [] then u == k
    else
      var m, rest := x.body.queue[0], x.body.queue[1..];
      && OnlyObjects(k.(delivered := u.delivered), u, {c})
      && u.delivered == k.delivered + (if m.transfers then multiset{(x.body.owner, m.handle)} else multiset{})
      && u.objs[c] == x.(body := x.body.(queue := rest, got := x.body.got + [m],
                                         signal := if rest == [] && !x.body.peerClosed then 0 else |rest| + 1))
  }

  lemma ReceiveAlone(s: State, i: nat, c: Id)
    requires Inv(s) && i < |s.threads| && s.threads[i] == [Receive(c)]
    ensures IsChannel(s.k, c) && ReceiveOutcome(s.k, c, Alone(s, i).k)
  {
    hide Inv, Alone, KInv, EntriesHaveObjects;
    OneRegion(s, i, Receive(c));
  }

  /** A reference is taken exactly when the object is not destroyed and its count can go up. */
  lemma ReferenceAlone(s: State, i: nat, o: Id)
    requires Inv(s) && i < |s.threads| && s.threads[i] == [Reference(o)]
    ensures o < |s.k.objs|
    ensures var x, u := s.k.objs[o], Alone(s, i).k;
            if !x.destroyed && x.refs != UINT32_MAX
            then OnlyObjects(s.k, u, {o}) && u.objs[o] == x.(refs := x.refs + 1, client := x.client + 1)
            else u == s.k
  {
    hide Inv, Alone, KInv, EntriesHaveObjects;
    OneRegion(s, i, Reference(o));
  }

  // Handles.

  ghost predicate Live(k: Kernel, t: TableId, h: nat) { t < |k.tables| && Resolve(k.tables[t], h).Some? }

  /** The object, the token and the table let a handle with some access be opened. */
  ghost predicate MayOpen(k: Kernel, t: TableId, o: Id, token: Token, access: Mask) {
    && t < |k.tables| && o < |k.objs| && access != {}
    && ArgumentsValid(k.objs[o].security, Some(token), access) && Permits(k.objs[o].security.value, token, access)
    && !k.tables[t].closing && (exists j :: 0 <= j < |k.tables[t].entries| && Free(k.tables[t].entries[j]))
    && !k.objs[o].destroyed && !k.objs[o].disabled && k.objs[o].handles != UINT32_MAX && k.objs[o].refs != UINT32_MAX
  }

  /** A table with one handle more, never issued before, for an object with some access. */
  ghost predicate HandleMore(was: Table, now: Table, h: nat, o: Id, access: Mask, origin: Mask) {
    && h !in was.issued && now.issued == was.issued + {h} && now.active == was.active + 1 && now.closing == was.closing
    && Resolve(was, h).None? && Resolve(now, h).Some? && |now.entries| == |was.entries|
    && (forall g :: g != h ==> Resolve(now, g) == Resolve(was, g))
    && (forall j :: 0 <= j < |was.entries| && j != Resolve(now, h).value ==> now.entries[j] == was.entries[j])
    && var e := now.entries[Resolve(now, h).value];
       e.obj == Some(o) && e.access == access && e.origin == origin
  }

  /** The kernel has a new handle, which counts among the object's handles and references. */
  ghost predicate Opened(k: Kernel, t: TableId, o: Id, access: Mask, origin: Mask, u: Kernel, h: nat)
    requires t < |k.tables| && o < |k.objs|
  {
    var x := k.objs[o];
    && |u.tables| == |k.tables| && u == k.(objs := u.objs, tables := u.tables)
    && u.objs == k.objs[o := x.(refs := x.refs + 1, handles := x.handles + 1)]
    && (forall j :: 0 <= j < |k.tables| && j != t ==> u.tables[j] == k.tables[j])
    && HandleMore(k.tables[t], u.tables[t], h, o, access, origin)
  }

  lemma FilledMore(t: Table, j: nat, o: Id, access: Mask, origin: Mask)
    requires TableValid(t) && j < |t.entries| && Free(t.entries[j]) && !t.swept && access != {} && access <= origin
    ensures HandleMore(t, Fill(t, j, o, access, origin), Encode(j, t.entries[j].generation), o, access, origin)
  {
    FillIsFresh(t, j, o, access, origin);
    hide TableValid, Encode;
    var u, h := Fill(t, j, o, access, origin), Encode(j, t.entries[j].generation);
    forall g | g != h
      ensures Resolve(u, g) == Resolve(t, g)
    {
      FillElsewhere(t, j, o, access, origin, g);
    }
  }

  lemma FillElsewhere(t: Table, j: nat, o: Id, access: Mask, origin: Mask, g: nat)
    requires j < |t.entries| && Free(t.entries[j]) && g != Encode(j, t.entries[j].generation)
    ensures Resolve(Fill(t, j, o, access, origin), g) == Resolve(t, g)
  {
    hide Encode;
    var d := Decode(|t.entries|, g);
    if d.Some? && d.value.0 == j && d.value.1 == t.entries[j].generation {
      DecodeEncode(|t.entries|, g);
    }
  }

  lemma InsertIs(k: Kernel, t: TableId, o: Id, token: Token, access: Mask, origin: Mask)
    requires KInv(k) && t < |k.tables| && o < |k.objs| && access <= origin
    ensures var r := InsertHandle(k, t, o, token, access, origin);
            && (r.Some? <==> MayOpen(k, t, o, token, access))
            && (r.Some? ==> Opened(k, t, o, access, origin, r.value.0, r.value.1))
  {
    hide KInv, HandleMore, TableValid, Encode, Permits, ArgumentsValid;
    var r, table := InsertHandle(k, t, o, token, access, origin), k.tables[t];
    var j := FirstFree(table.entries, 0);
    if r.Some? {
      NotSwept(k, t);
      FilledMore(table, j, o, access, origin);
    }
  }

  /** Opening a handle succeeds exactly when the object, the token and the table let it, and else changes nothing. */
  lemma OpenAlone(s: State, i: nat, t: TableId, o: Id, token: Token, access: Mask) returns (h: nat)
    requires Inv(s) && i < |s.threads| && s.threads[i] == [OpenHandle(t, o, token, access)]
    ensures t < |s.k.tables| && o < |s.k.objs|
    ensures if MayOpen(s.k, t, o, token, access) then Opened(s.k, t, o, access, access, Alone(s, i).k, h) else Alone(s, i).k == s.k
  {
    hide Inv, Alone, KInv, EntriesHaveObjects, MayOpen, Opened, InsertHandle;
    OneRegion(s, i, OpenHandle(t, o, token, access));
    InsertIs(s.k, t, o, token, access, access);
    var r := InsertHandle(s.k, t, o, token, access, access);
    h := if r.Some? then r.value.1 else 0;
  }

  /** The handle is live, its table is not being closed, and the object it is for can be referenced. */
  ghost predicate Usable(k: Kernel, t: TableId, h: nat) {
    && Live(k, t, h) && !k.tables[t].closing
    && var o := EntryOf(k, t, h).obj.value; o < |k.objs| && CanReference(k.objs[o])
  }

  lemma EntryReferenced(s: State, t: TableId, h: nat)
    requires Inv(s) && t < |s.k.tables|
    ensures var r := ReferenceEntry(s.k, t, h);
            if Usable(s.k, t, h) then
              var o := EntryOf(s.k, t, h).obj.value;
              r == Some((Counted(s.k, o, 1), EntryOf(s.k, t, h))) && s.k.objs[o].refs >= 1
            else r.None?
  {
    hide Inv, Resolve;
    if Live(s.k, t, h) {
      LiveHandleCounts(s, t, h);
      InvKernel(s);
      InvObj(s.k, EntryOf(s.k, t, h).obj.value);
    }
  }

  /**
   * A lookup takes a reference for the caller exactly when the handle is live, its table is not being
   * closed, it grants the access, and its object is of the kind and can be referenced.
   */
  lemma LookupAlone(s: State, i: nat, t: TableId, h: nat, access: Mask, kind: Kind)
    requires Inv(s) && i < |s.threads| && s.threads[i] == [Lookup(t, h, access, kind)]
    ensures t < |s.k.tables|
    ensures var u := Alone(s, i).k;
            if Usable(s.k, t, h) && access <= EntryOf(s.k, t, h).access
               && (kind == AnyKind || kind == KindOf(s.k.objs[EntryOf(s.k, t, h).obj.value].body)) then
              var o := EntryOf(s.k, t, h).obj.value;
              && OnlyObjects(s.k, u, {o})
              && u.objs[o] == s.k.objs[o].(refs := s.k.objs[o].refs + 1, client := s.k.objs[o].client + 1)
            else u == s.k
  {
    hide Inv, Alone, KInv, EntriesHaveObjects, Resolve, ReferenceEntry;
    var task := Lookup(t, h, access, kind);
    OneRegion(s, i, task);
    EntryReferenced(s, t, h);
    if Usable(s.k, t, h) && Exec(s.k, task).1 != [] {
      AndGivesBack(s, i, task, EntryOf(s.k, t, h).obj.value, s.k);
    }
  }

  /** What a duplication asks for. */
  ghost function Asked(k: Kernel, src: TableId, h: nat, access: Mask, same: bool): Mask
    requires Live(k, src, h)
  {
    if same then EntryOf(k, src, h).access else access
  }

  /** The source handle can be used and grants what is asked, and the target lets it be opened. */
  ghost predicate MayDuplicate(k: Kernel, src: TableId, h: nat, dst: TableId, token: Token, access: Mask, same: bool) {
    && (same || access != {}) && Usable(k, src, h)
    && var e := EntryOf(k, src, h);
       var wanted := Asked(k, src, h, access, same);
       wanted <= e.access && k.objs[e.obj.value].refs + 1 < UINT32_MAX && MayOpen(k, dst, e.obj.value, token, wanted)
  }

  lemma TargetAlone(s: State, i: nat, k: Kernel, o: Id, access: Mask, origin: Mask, dst: TableId, token: Token) returns (h: nat)
    requires i < |s.threads| && o < |k.objs| && dst < |k.tables| && access <= origin && KInv(k) && k.objs[o].refs >= 1
    requires Inv(At(s, i, Counted(k, o, 1), [DupTarget(o, access, origin, dst, token, Return)]))
    ensures var u := Alone(At(s, i, Counted(k, o, 1), [DupTarget(o, access, origin, dst, token, Return)]), i).k;
            if k.objs[o].refs + 1 < UINT32_MAX && MayOpen(k, dst, o, token, access)
            then Opened(k, dst, o, access, origin, u, h) else u == k
  {
    hide Inv, Alone, KInv, EntriesHaveObjects, MayOpen, Opened, InsertHandle;
    var k1, task := Counted(k, o, 1), DupTarget(o, access, origin, dst, token, Return);
    assert s.threads[i := [task]][i] == [task];
    var here := At(s, i, k1, [task]);
    OneRegion(here, i, task);
    Living(s, i, k1, [task], o);
    InsertIs(k, dst, o, token, access, origin);
    InsertCounted(k, o, dst, o, token, access, origin);
    var r, r' := InsertHandle(k, dst, o, token, access, origin), InsertHandle(k1, dst, o, token, access, origin);
    h := if r.Some? then r.value.1 else 0;
    if r'.Some? {
      OpenedRefs(k, dst, o, access, origin, r.value.0, h);
      AndGivesBack(here, i, task, o, r.value.0);
    } else {
      assert [Release(o)] + [] == [Release(o)];
      AndGivesBack(here, i, task, o, k);
    }
  }

  lemma OpenedRefs(k: Kernel, t: TableId, o: Id, access: Mask, origin: Mask, u: Kernel, h: nat)
    requires t < |k.tables| && o < |k.objs| && Opened(k, t, o, access, origin, u, h)
    ensures o < |u.objs| && u.objs[o].refs >= 1
  {
    hide HandleMore;
  }

  /** A duplicate is opened exactly when it may be, with what was asked and never more; else nothing changes. */
  lemma DuplicateAlone(s: State, i: nat, src: TableId, h: nat, dst: TableId, token: Token, access: Mask, same: bool)
    returns (duplicate: nat)
    requires Inv(s) && i < |s.threads| && s.threads[i] == [DupSource(src, h, dst, token, access, same, Return)]
    ensures src < |s.k.tables| && dst < |s.k.tables|
    ensures var u := Alone(s, i).k;
            if MayDuplicate(s.k, src, h, dst, token, access, same) then
              var e := EntryOf(s.k, src, h);
              && e.obj.value < |s.k.objs|
              && Opened(s.k, dst, e.obj.value, Asked(s.k, src, h, access, same), e.origin, u, duplicate)
            else u == s.k
  {
    hide Inv, Alone, KInv, EntriesHaveObjects, Resolve, ReferenceEntry, MayOpen, Opened;
    duplicate := 0;
    var task := DupSource(src, h, dst, token, access, same, Return);
    assert s == At(s, i, s.k, [task]);
    OneRegion(s, i, task);
    EntryReferenced(s, src, h);
    if (same || access != {}) && Usable(s.k, src, h) {
      var e, wanted := EntryOf(s.k, src, h), Asked(s.k, src, h, access, same);
      var o := e.obj.value;
      if wanted <= e.access {
        LiveHandleCounts(s, src, h);
        var target := DupTarget(o, wanted, e.origin, dst, token, Return);
        Advance(s, i, s.k, [task]);
        assert Exec(s.k, task) == (Counted(s.k, o, 1), [target]) && [target] + [task][1..] == [target];
        duplicate := TargetAlone(s, i, s.k, o, wanted, e.origin, dst, token);
      } else {
        assert [Release(o)] + [] == [Release(o)];
        AndGivesBack(s, i, task, o, s.k);
      }
    }
  }

  // Closing.

  /** A table in which one handle no longer resolves. */
  ghost predicate HandleLess(was: Table, now: Table, h: nat) {
    && Resolve(was, h).Some? && Resolve(now, h).None? && now.issued == was.issued && now.closing == was.closing
    && now.active + 1 == was.active && |now.entries| == |was.entries|
    && (forall g :: g != h ==> Resolve(now, g) == Resolve(was, g))
    && (forall j :: 0 <= j < |was.entries| && j != Resolve(was, h).value ==> now.entries[j] == was.entries[j])
  }

  lemma VacatedLess(t: Table, h: nat)
    requires TableValid(t) && Resolve(t, h).Some?
    ensures HandleLess(t, Vacate(t, Resolve(t, h).value), h)
  {
    var j := Resolve(t, h).value;
    var u := Vacate(t, j);
    ResolveNames(t, h);
    VacateValid(t, j);
    hide TableValid, Encode;
    forall g | g != h
      ensures Resolve(u, g) == Resolve(t, g)
    {
      var d := Decode(|t.entries|, g);
      if d.Some? && d.value.0 == j && d.value.1 == t.entries[j].generation {
        DecodeEncode(|t.entries|, g);
      }
    }
  }

  /** The object is closed for good. */
  ghost predicate Shut(k: Kernel, o: Id) {
    o < |k.objs| && match k.objs[o].body
                    case Channel(peer, _, _, queue, _, open, _, _, _, _, _) => !open && peer.None? && queue == []
                    case Port(pending, _, closed, _, _, _, _) => closed && pending == []
                    case Section(_) => true
  }

  lemma ShutStays(k: Kernel, u: Kernel, o: Id)
    requires Evolves(k, u) && Shut(k, o) && KInv(u)
    ensures Shut(u, o)
  {
    hide TableEvolves, LinkEvolves, TablesOk, KeysOk;
    InvObj(u, o);
    assert ObjEvolves(k.objs[o], u.objs[o]);
  }

  lemma DeadStays(k: Kernel, u: Kernel, t: TableId, h: nat)
    requires Evolves(k, u) && Dead(k, (t, h))
    ensures Dead(u, (t, h))
  {
    hide ObjEvolves, LinkEvolves, Resolve;
    assert TableEvolves(k.tables[t], u.tables[t]);
  }

  /** The handles that a queue carries are dead. */
  ghost predicate AllDead(k: Kernel, owner: TableId, queue: seq<Msg>) {
    forall j :: 0 <= j < |queue| && queue[j].transfers ==> Dead(k, (owner, queue[j].handle))
  }

  lemma DisposedDead(k: Kernel, t: TableId, h: nat)
    requires KInv(k) && Issued(k, t, h)
    ensures Dead(ExecDispose(k, t, h).0, (t, h))
  {
    InvTable(k, t);
    if Resolve(k.tables[t], h).Some? {
      VacatedLess(k.tables[t], h);
    }
  }

  /** Disposing of the handles of a queue leaves all of them dead. */
  lemma {:induction false} DisposesAll(s: State, i: nat, k: Kernel, owner: TableId, queue: seq<Msg>, rest: seq<Task>)
    returns (k': Kernel)
    requires i < |s.threads| && Inv(At(s, i, k, Disposals(owner, queue) + rest))
    ensures Inv(At(s, i, k', rest)) && Evolves(k, k') && AllDead(k', owner, queue)
    ensures Alone(At(s, i, k, Disposals(owner, queue) + rest), i) == Alone(At(s, i, k', rest), i)
    decreases |queue|
  {
    hide Inv, Evolves, Alone, KInv, EntriesHaveObjects, Dead, ExecDispose;
    if queue == [] {
      EvolvesReflexive(k);
      assert Disposals(owner, queue) + rest == rest;
      return k;
    }
    var more := Disposals(owner, queue[1..]) + rest;
    if !queue[0].transfers {
      assert Disposals(owner, queue) + rest == more;
      k' := DisposesAll(s, i, k, owner, queue[1..], rest);
    } else {
      var task := DisposeHandle(owner, queue[0].handle);
      assert Disposals(owner, queue) + rest == [task] + more;
      var k1 := DisposesOne(s, i, k, owner, queue[0].handle, more);
      k' := DisposesAll(s, i, k1, owner, queue[1..], rest);
      EvolvesTransitive(k, k1, k');
      DeadStays(k1, k', owner, queue[0].handle);
    }
    assert forall j :: 0 < j < |queue| ==> queue[j] == queue[1..][j - 1];
  }

  lemma DisposesOne(s: State, i: nat, k: Kernel, t: TableId, h: nat, rest: seq<Task>) returns (k': Kernel)
    requires i < |s.threads| && Inv(At(s, i, k, [DisposeHandle(t, h)] + rest))
    ensures Inv(At(s, i, k', rest)) && Evolves(k, k') && Dead(k', (t, h))
    ensures Alone(At(s, i, k, [DisposeHandle(t, h)] + rest), i) == Alone(At(s, i, k', rest), i)
  {
    hide Inv, Evolves, Alone, KInv, EntriesHaveObjects, Dead, ExecDispose;
    var stack := [DisposeHandle(t, h)] + rest;
    Advance(s, i, k, stack);
    InvKernel(At(s, i, k, stack));
    DisposedDead(k, t, h);
    var (k1, push) := Exec(k, stack[0]);
    assert push + stack[1..] == push + rest;
    k' := RunsPart(s, i, k1, push, rest);
    StackEvolves(s, i, k, stack);
    EvolvesTransitive(k, k1, k');
    DeadStays(k1, k', t, h);
  }

  lemma StackEvolves(s: State, i: nat, k: Kernel, stack: seq<Task>)
    requires i < |s.threads| && stack != [] && Inv(At(s, i, k, stack))
    ensures EntriesHaveObjects(k) && TaskOk(k, stack[0]) && Evolves(k, Exec(k, stack[0]).0)
  {
    hide Inv, Evolves, Exec, Enabled, Do;
    var u := At(s, i, k, stack);
    CanGoOn(u, i);
    DoEvolves(u, Step(i));
    StepIs(s, i, k, stack);
  }

  /** The channel knows that its peer is closed, and has let go of it. */
  ghost predicate Severed(k: Kernel, p: Id) {
    IsChannel(k, p) && k.objs[p].body.peerClosed && k.objs[p].body.peer.None?
  }

  lemma SeveredStays(k: Kernel, u: Kernel, p: Id)
    requires Evolves(k, u) && Severed(k, p)
    ensures Severed(u, p)
  {
    hide TableEvolves;
    assert ObjEvolves(k.objs[p], u.objs[p]) && LinkEvolves(k, u, p);
  }

  lemma ClosesShut(k: Kernel, o: Id)
    requires KInv(k) && o < |k.objs|
    ensures Shut(ExecCloseObject(k, o).0, o)
  {
    hide KInv, Disposals, Abandonments;
    InvObj(k, o);
  }

  lemma ChannelCloses(k: Kernel, c: Id)
    requires KInv(k) && IsChannel(k, c) && k.objs[c].body.open
    ensures var x := k.objs[c].body;
            var (k1, push) := ExecCloseChannel(k, c);
            && |push| >= |Disposals(x.owner, x.queue)| && push[..|Disposals(x.owner, x.queue)|] == Disposals(x.owner, x.queue)
            && (x.peer.Some? ==> Severed(k1, x.peer.value))
  {
    hide KInv, Disposals;
    InvObj(k, c);
    var x := k.objs[c].body;
    var drops := Disposals(x.owner, x.queue);
    if x.peer.Some? {
      var p := x.peer.value;
      assert drops + [Release(p)] + [Release(c)] == drops + [Release(p), Release(c)];
      assert (drops + [Release(p), Release(c)])[..|drops|] == drops;
    } else {
      assert drops[..|drops|] == drops;
    }
  }

  /**
   * Closing leaves the object shut. The handles that a channel's queue carried are dead and its peer
   * knows of the close; the channels that waited at a port are shut too. A second close does nothing.
   */
  ghost predicate CloseOutcome(k: Kernel, o: Id, u: Kernel)
    requires o < |k.objs|
  {
    && Shut(u, o)
    && match k.objs[o].body
       case Channel(peer, owner, _, queue, _, open, _, _, _, _, _) =>
         if !open then u == k else AllDead(u, owner, queue) && (peer.Some? ==> Severed(u, peer.value))
       case Port(pending, _, closed, _, _, _, _) =>
         if closed then u == k else forall j :: 0 <= j < |pending| ==> Shut(u, pending[j])
       case Section(_) => true
  }

  /** Closing a channel and going on, whatever comes next on the stack. */
  lemma ClosesChannel(s: State, i: nat, k: Kernel, c: Id, rest: seq<Task>) returns (k': Kernel)
    requires i < |s.threads| && Inv(At(s, i, k, [CloseObject(c)] + rest)) && IsChannel(k, c) && k.objs[c].body.open
    ensures Inv(At(s, i, k', rest)) && Evolves(k, k') && KInv(k') && CloseOutcome(k, c, k')
    ensures Alone(At(s, i, k, [CloseObject(c)] + rest), i) == Alone(At(s, i, k', rest), i)
  {
    hide Inv, Evolves, Alone, KInv, EntriesHaveObjects, Dead, ExecCloseChannel, Shut, Severed, Disposals;
    var x := k.objs[c].body;
    var stack := [CloseObject(c)] + rest;
    InvKernel(At(s, i, k, stack));
    Advance(s, i, k, stack);
    StackEvolves(s, i, k, stack);
    ClosesShut(k, c);
    ChannelCloses(k, c);
    var (k1, push) := ExecCloseChannel(k, c);
    var drops := Disposals(x.owner, x.queue);
    var later := push[|drops|..];
    assert push == drops + later && push + stack[1..] == drops + (later + rest);
    var k2 := DisposesAll(s, i, k1, x.owner, x.queue, later + rest);
    k' := RunsPart(s, i, k2, later, rest);
    InvKernel(At(s, i, k', rest));
    EvolvesTransitive(k1, k2, k');
    EvolvesTransitive(k, k1, k');
    ShutStays(k1, k', c);
    if x.peer.Some? {
      SeveredStays(k1, k', x.peer.value);
    }
    forall j | 0 <= j < |x.queue| && x.queue[j].transfers
      ensures Dead(k', (x.owner, x.queue[j].handle))
    {
      DeadStays(k2, k', x.owner, x.queue[j].handle);
    }
  }

  /** Closing a pending endpoint and giving it up. */
  lemma AbandonsOne(s: State, i: nat, k: Kernel, c: Id, rest: seq<Task>) returns (k': Kernel)
    requires i < |s.threads| && Inv(At(s, i, k, [CloseObject(c), Release(c)] + rest))
    ensures Inv(At(s, i, k', rest)) && Evolves(k, k') && Shut(k', c)
    ensures Alone(At(s, i, k, [CloseObject(c), Release(c)] + rest), i) == Alone(At(s, i, k', rest), i)
  {
    hide Inv, Evolves, Alone, KInv, EntriesHaveObjects, ExecCloseObject, Shut;
    var stack := [CloseObject(c), Release(c)] + rest;
    InvKernel(At(s, i, k, stack));
    Advance(s, i, k, stack);
    StackEvolves(s, i, k, stack);
    ClosesShut(k, c);
    var (k1, push) := ExecCloseObject(k, c);
    assert push + stack[1..] == (push + [Release(c)]) + rest;
    k' := RunsPart(s, i, k1, push + [Release(c)], rest);
    InvKernel(At(s, i, k', rest));
    EvolvesTransitive(k, k1, k');
    ShutStays(k1, k', c);
  }

  lemma {:induction false} AbandonsAll(s: State, i: nat, k: Kernel, pending: seq<Id>, rest: seq<Task>) returns (k': Kernel)
    requires i < |s.threads| && Inv(At(s, i, k, Abandonments(pending) + rest))
    ensures Inv(At(s, i, k', rest)) && Evolves(k, k') && KInv(k') && forall j :: 0 <= j < |pending| ==> Shut(k', pending[j])
    ensures Alone(At(s, i, k, Abandonments(pending) + rest), i) == Alone(At(s, i, k', rest), i)
    decreases |pending|
  {
    hide Inv, Evolves, Alone, KInv, Shut;
    if pending == [] {
      EvolvesReflexive(k);
      assert Abandonments(pending) + rest == rest;
      InvKernel(At(s, i, k, rest));
      return k;
    }
    var c, more := pending[0], Abandonments(pending[1..]) + rest;
    assert Abandonments(pending) + rest == [CloseObject(c), Release(c)] + more;
    var k1 := AbandonsOne(s, i, k, c, more);
    k' := AbandonsAll(s, i, k1, pending[1..], rest);
    EvolvesTransitive(k, k1, k');
    ShutStays(k1, k', c);
    assert forall j :: 0 < j < |pending| ==> pending[j] == pending[1..][j - 1];
  }

  lemma ClosesPort(s: State, i: nat, k: Kernel, p: Id, rest: seq<Task>) returns (k': Kernel)
    requires i < |s.threads| && Inv(At(s, i, k, [CloseObject(p)] + rest)) && IsPort(k, p) && !k.objs[p].body.closed
    ensures Inv(At(s, i, k', rest)) && Evolves(k, k') && KInv(k') && CloseOutcome(k, p, k')
    ensures Alone(At(s, i, k, [CloseObject(p)] + rest), i) == Alone(At(s, i, k', rest), i)
  {
    hide Inv, Evolves, Alone, KInv, EntriesHaveObjects, Shut, Abandonments;
    var pending := k.objs[p].body.pending;
    var stack := [CloseObject(p)] + rest;
    InvKernel(At(s, i, k, stack));
    Advance(s, i, k, stack);
    StackEvolves(s, i, k, stack);
    ClosesShut(k, p);
    var k1 := ExecClosePort(k, p).0;
    assert Abandonments(pending) + stack[1..] == Abandonments(pending) + rest;
    k' := AbandonsAll(s, i, k1, pending, rest);
    EvolvesTransitive(k, k1, k');
    ShutStays(k1, k', p);
  }

  /** A whole close of a channel or a port. */
  lemma CloseAlone(s: State, i: nat, o: Id)
    requires Inv(s) && i < |s.threads| && s.threads[i] == [CloseObject(o)] && o < |s.k.objs| && !s.k.objs[o].body.Section?
    ensures CloseOutcome(s.k, o, Alone(s, i).k)
  {
    hide Inv, Alone, KInv, EntriesHaveObjects, Dead, Severed, Disposals, Abandonments, Evolves;
    assert [CloseObject(o)] + [] == [CloseObject(o)] && s == At(s, i, s.k, [CloseObject(o)]);
    OneRegion(s, i, CloseObject(o));
    InvObj(s.k, o);
    if s.k.objs[o].body.Channel? && s.k.objs[o].body.open {
      var u := ClosesChannel(s, i, s.k, o, []);
      Returned(s, i, u);
    } else if s.k.objs[o].body.Port? && !s.k.objs[o].body.closed {
      var u := ClosesPort(s, i, s.k, o, []);
      Returned(s, i, u);
    }
  }

  /**
   * Closing a handle that is not live does nothing. Otherwise it is dead, and if it was the last one of
   * a channel or a port, that is shut for good; if not, its object loses a handle and a reference, and
   * with its last reference its mapping, and nothing else changes.
   */
  ghost predicate CloseHandleOutcome(k: Kernel, t: TableId, h: nat, u: Kernel)
    requires t < |k.tables|
  {
    if !Live(k, t, h) then u == k
    else
      var o := EntryOf(k, t, h).obj.value;
      && o < |k.objs|
      && var x := k.objs[o];
         if x.handles == 1 && !x.body.Section? then
           Dead(u, (t, h)) && Shut(u, o) && u.objs[o].disabled
         else
           && |u.tables| == |k.tables| && |u.objs| == |k.objs| && u == k.(objs := u.objs, tables := u.tables)
           && (forall j :: 0 <= j < |k.tables| && j != t ==> u.tables[j] == k.tables[j])
           && HandleLess(k.tables[t], u.tables[t], h)
           && x.refs >= 1 && x.handles >= 1
           && u.objs == k.objs[o := if x.refs >= 2 then x.(refs := x.refs - 1, handles := x.handles - 1)
                                    else x.(refs := 0, handles := 0, destroyed := true, destroyRuns := x.destroyRuns + 1,
                                            body := Section(false))]
  }

  lemma HandleVacated(s: State, i: nat, t: TableId, h: nat)
    requires Inv(s) && i < |s.threads| && s.threads[i] == [CloseHandle(t, h)] && Live(s.k, t, h)
    ensures var o := EntryOf(s.k, t, h).obj.value;
            var k1 := SetTable(s.k, t, Vacate(s.k.tables[t], Resolve(s.k.tables[t], h).value));
            && o < |s.k.objs| && s.k.objs[o].handles >= 1 && HeaderOk(s.k.objs[o]) && s.k.objs[o].refs >= 1
            && HandleLess(s.k.tables[t], k1.tables[t], h) && Dead(k1, (t, h)) && Inv(At(s, i, k1, [RemoveHandle(o)]))
            && Alone(s, i) == Alone(At(s, i, k1, [RemoveHandle(o)]), i)
  {
    hide Inv, Alone, EntriesHaveObjects, Resolve, Vacate, HandleLess, TableValid, KInv;
    var task := CloseHandle(t, h);
    var o := EntryOf(s.k, t, h).obj.value;
    assert s == At(s, i, s.k, [task]);
    InvKernel(s);
    LiveHandleCounts(s, t, h);
    InvObj(s.k, o);
    InvTable(s.k, t);
    VacatedLess(s.k.tables[t], h);
    VacatedDead(s.k, t, h);
    ResolveNames(s.k.tables[t], h);
    Advance(s, i, s.k, [task]);
    var k1 := SetTable(s.k, t, Vacate(s.k.tables[t], Resolve(s.k.tables[t], h).value));
    assert Exec(s.k, task) == (k1, [RemoveHandle(o)]);
    assert [RemoveHandle(o)] + [task][1..] == [RemoveHandle(o)];
    Living(s, i, k1, [RemoveHandle(o)], o);
    HandleIsHeld(s, t, h);
  }

  /** An object with a live handle is alive. */
  lemma HandleIsHeld(s: State, t: TableId, h: nat)
    requires Inv(s) && Live(s.k, t, h)
    ensures EntryOf(s.k, t, h).obj.value < |s.k.objs| && s.k.objs[EntryOf(s.k, t, h).obj.value].refs >= 1
  {
    hide HandleLedger, KeyLedger, DoomLedger, TasksOk;
    var table := s.k.tables[t];
    var j := Resolve(table, h).value;
    InvTable(s.k, t);
    ResolveNames(table, h);
    assert EntryValid(table.entries[j]);
    var o := table.entries[j].obj.value;
    SumBounds(EntryHolds(o), table.entries, j);
    SumBounds(TableHolds(o), s.k.tables, t);
    assert Refs(s.k, o) == Held(s.k, o) + InFlight(s, o);
  }

  lemma VacatedDead(k: Kernel, t: TableId, h: nat)
    requires KInv(k) && Live(k, t, h)
    ensures Dead(SetTable(k, t, Vacate(k.tables[t], Resolve(k.tables[t], h).value)), (t, h))
  {
    hide Encode;
    InvTable(k, t);
    ResolveNames(k.tables[t], h);
    VacatedLess(k.tables[t], h);
  }

  /** The last handle of a channel or a port. */
  lemma RemovesLast(s: State, i: nat, k: Kernel, o: Id) returns (u: Kernel)
    requires i < |s.threads| && Inv(At(s, i, k, [RemoveHandle(o)])) && o < |k.objs| && !k.objs[o].body.Section?
    requires k.objs[o].handles == 1 && k.objs[o].refs >= 1 && !k.objs[o].destroyed
    ensures u == Alone(At(s, i, k, [RemoveHandle(o)]), i).k && Evolves(k, u) && Shut(u, o) && u.objs[o].disabled
  {
    hide Inv, Evolves, Alone, KInv, EntriesHaveObjects, Shut;
    Advance(s, i, k, [RemoveHandle(o)]);
    StackEvolves(s, i, k, [RemoveHandle(o)]);
    var x := k.objs[o];
    var k1 := SetObj(k, o, x.(handles := 0, disabled := true, callbackRuns := x.callbackRuns + 1));
    var stack := [CloseObject(o), Release(o)];
    assert Exec(k, RemoveHandle(o)) == (k1, stack) && stack + [RemoveHandle(o)][1..] == stack + [];
    u := AbandonsOne(s, i, k1, o, []);
    Returned(s, i, u);
    EvolvesTransitive(k, k1, u);
    DisabledStays(k1, u, o);
  }

  lemma DisabledStays(k: Kernel, u: Kernel, o: Id)
    requires Evolves(k, u) && o < |k.objs| && k.objs[o].disabled
    ensures o < |u.objs| && u.objs[o].disabled
  {
    hide TableEvolves, LinkEvolves;
    assert ObjEvolves(k.objs[o], u.objs[o]);
  }

  /** Any other handle. */
  lemma RemovesOne(s: State, i: nat, k: Kernel, o: Id)
    requires i < |s.threads| && Inv(At(s, i, k, [RemoveHandle(o)])) && o < |k.objs|
    requires k.objs[o].handles >= 1 && k.objs[o].refs >= 1 && !k.objs[o].destroyed
    requires k.objs[o].body.Section? || k.objs[o].handles >= 2
    ensures var x := k.objs[o];
            Alone(At(s, i, k, [RemoveHandle(o)]), i).k
            == SetObj(k, o, if x.refs >= 2 then x.(refs := x.refs - 1, handles := x.handles - 1)
                            else x.(refs := 0, handles := 0, destroyed := true, destroyRuns := x.destroyRuns + 1,
                                    body := Section(false)))
  {
    hide Inv, Alone, KInv, EntriesHaveObjects, BodyOk;
    var x := k.objs[o];
    Advance(s, i, k, [RemoveHandle(o)]);
    var k1 := SetObj(k, o, x.(handles := x.handles - 1));
    assert Exec(k, RemoveHandle(o)) == (k1, [Release(o)]) && [Release(o)] + [RemoveHandle(o)][1..] == [Release(o)] + [];
    if x.refs >= 2 {
      var u := SetObj(k, o, x.(refs := x.refs - 1, handles := x.handles - 1));
      GiveBack(s, i, k1, o, [], u);
      Returned(s, i, u);
    } else {
      SoleReference(s, i, k1, o);
      EndsSection(s, i, k1, o);
    }
  }

  /** The reference that is given back is the only one, so there are no handles left. */
  lemma SoleReference(s: State, i: nat, k: Kernel, o: Id)
    requires i < |s.threads| && Inv(At(s, i, k, [Release(o)] + [])) && o < |k.objs| && k.objs[o].refs == 1
    ensures k.objs[o].handles == 0
  {
    hide Alone, KInv, EntriesHaveObjects, BodyOk, Inv;
    Living(s, i, k, [Release(o)] + [], o);
    Advance(s, i, k, [Release(o)] + []);
    var (k', push) := Exec(k, Release(o));
    NoFaults(At(s, i, k, [Release(o)] + []));
    NoFaults(At(s, i, k', push + ([Release(o)] + [])[1..]));
  }

  lemma NoFaults(s: State)
    requires Inv(s)
    ensures s.k.faults == 0
  {
  }

  lemma EndsSection(s: State, i: nat, k: Kernel, o: Id)
    requires i < |s.threads| && Inv(At(s, i, k, [Release(o)] + [])) && o < |k.objs| && k.objs[o].refs == 1
    requires k.objs[o].handles == 0 && k.objs[o].body.Section?
    ensures Alone(At(s, i, k, [Release(o)] + []), i).k
         == SetObj(k, o, k.objs[o].(refs := 0, destroyed := true, destroyRuns := k.objs[o].destroyRuns + 1, body := Section(false)))
  {
    hide Inv, Alone, KInv, EntriesHaveObjects, BodyOk;
    var x := k.objs[o];
    Living(s, i, k, [Release(o)] + [], o);
    Advance(s, i, k, [Release(o)] + []);
    var k1 := SetObj(k, o, x.(refs := 0, destroyed := true, destroyRuns := x.destroyRuns + 1));
    assert Exec(k, Release(o)) == (k1, [CloseObject(o)]) && [CloseObject(o)] + ([Release(o)] + [])[1..] == [CloseObject(o)];
    Advance(s, i, k1, [CloseObject(o)]);
    var u := SetObj(k, o, x.(refs := 0, destroyed := true, destroyRuns := x.destroyRuns + 1, body := Section(false)));
    assert k1.objs[o := u.objs[o]] == u.objs && u.objs[o] == k1.objs[o].(body := Section(false));
    assert ExecCloseObject(k1, o) == (u, []) && [] + [CloseObject(o)][1..] == [];
    Returned(s, i, u);
  }

  /** A whole close of a handle. */
  lemma CloseHandleAlone(s: State, i: nat, t: TableId, h: nat)
    requires Inv(s) && i < |s.threads| && s.threads[i] == [CloseHandle(t, h)]
    ensures t < |s.k.tables| && CloseHandleOutcome(s.k, t, h, Alone(s, i).k)
  {
    hide Inv, Alone, KInv, EntriesHaveObjects, Resolve, Vacate, HandleLess, Evolves, Shut, Dead;
    OneRegion(s, i, CloseHandle(t, h));
    if Live(s.k, t, h) {
      HandleVacated(s, i, t, h);
      ResolveNames(s.k.tables[t], h);
      var o := EntryOf(s.k, t, h).obj.value;
      var k1 := SetTable(s.k, t, Vacate(s.k.tables[t], Resolve(s.k.tables[t], h).value));
      if s.k.objs[o].handles == 1 && !s.k.objs[o].body.Section? {
        var u := RemovesLast(s, i, k1, o);
        DeadStays(k1, u, t, h);
      } else {
        RemovesOne(s, i, k1, o);
      }
    }
  }

  // A handle sent from end to end.

  /** The state in which a thread has made one more call, alone. */
  ghost function Called(s: State, task: Task): State
    requires Inv(s) && Enabled(s, Call(task))
  {
    DoKeeps(s, Call(task));
    CallThreads(s, task);
    Alone(Do(s, Call(task)), |s.threads|)
  }

  lemma CallThreads(s: State, task: Task)
    requires Enabled(s, Call(task))
    ensures var u := Do(s, Call(task)); u.k == s.k && |u.threads| == |s.threads| + 1 && u.threads[|s.threads|] == [task]
  {
    hide Exec;
  }

  lemma CalledKeeps(s: State, task: Task)
    requires Inv(s) && Enabled(s, Call(task))
    ensures Inv(Called(s, task))
  {
    hide Inv, Alone, Do, Enabled;
    DoKeeps(s, Call(task));
    CallThreads(s, task);
    var actions := AloneIsRun(Do(s, Call(task)), |s.threads|);
  }

  /** The caller's handle grants what the message offers, and the server may be given it. */
  ghost predicate Sendable(k: Kernel, o: PairOptions, m: Msg) {
    && MsgValid(m) && m.transfers && Usable(k, o.clientTable, m.handle)
    && var e := EntryOf(k, o.clientTable, m.handle);
       && m.access <= e.access && k.objs[e.obj.value].refs + 1 < UINT32_MAX
       && MayOpen(k, o.serverTable, e.obj.value, o.serverToken, m.access)
  }

  /** A send on a channel would reach its peer. */
  ghost predicate Carries(k: Kernel, c: Id, p: Id, m: Msg) {
    Accepts(k, c, m) && k.objs[c].body.peer == Some(p) && HasRoom(k, p) && CanCarry(k, c, m)
  }

  /** The ends of a pair that was just made take a message that can be sent. */
  lemma FreshAccepts(k: Kernel, u: Kernel, o: PairOptions, m: Msg)
    requires Wanted(k, o) && PairMade(k, o, u, 2, 1) && u.objs[..|k.objs|] == k.objs && KInv(u) && Sendable(k, o, m)
    ensures Carries(u, |k.objs|, |k.objs| + 1, m)
  {
    hide KInv, TokenValid, Resolve, Permits, ArgumentsValid, InsertHandle;
    var n, e := |k.objs|, EntryOf(k, o.clientTable, m.handle);
    var x := e.obj.value;
    assert u.objs[x] == u.objs[..n][x] == k.objs[x];
    InvTable(u, o.clientTable);
    EntryGrants(u, o.clientTable, m.handle);
    InsertIs(u, o.serverTable, x, o.serverToken, m.access, e.origin);
  }

  lemma EntryGrants(k: Kernel, t: TableId, h: nat)
    requires KInv(k) && Live(k, t, h)
    ensures EntryOf(k, t, h).access <= EntryOf(k, t, h).origin
  {
    InvTable(k, t);
    ResolveNames(k.tables[t], h);
    assert EntryValid(k.tables[t].entries[Resolve(k.tables[t], h).value]);
  }

  /** A call made and run alone leads from one state to another. */
  ghost predicate CallLeads(s: State, task: Task, u: State) {
    Inv(s) && Enabled(s, Call(task)) && u == Called(s, task)
  }

  /**
   * Make a pair, send a handle of the client's table on the client's end, and receive on the server's:
   * the server has a live handle of its own table for the same object, with the access that was offered,
   * and the client still has its own.
   */
  lemma PairDelivers(s: State, o: PairOptions, m: Msg) returns (made: State, sent: State, got: State, h: nat)
    requires Inv(s) && Wanted(s.k, o) && Sendable(s.k, o, m)
    ensures CallLeads(s, CreatePair(o), made)
    ensures CallLeads(made, SendBegin(|s.k.objs|, m), sent) && CallLeads(sent, Receive(|s.k.objs| + 1), got)
    ensures IsChannel(got.k, |s.k.objs| + 1) && got.k.objs[|s.k.objs| + 1].body.got == [m.(handle := h)]
    ensures HandleHandedOver(s.k, o.clientTable, m.handle, got.k, o.serverTable, h, m.access)
  {
    hide Inv, Alone, KInv, Resolve, PairMade, Accepts, CanCarry, TokenValid, HandleHandedOver, Exec, Do, Called, HandedOver;
    hide MayOpen, Usable, MsgValid;
    var n := |s.k.objs|;
    MadePair(s, o);
    CalledKeeps(s, CreatePair(o));
    made := Called(s, CreatePair(o));
    InvKernel(made);
    FreshAccepts(s.k, made.k, o, m);
    MadeTables(s.k, made.k, o);
    SentThenReceived(made, n, m);
    sent := Called(made, SendBegin(n, m));
    got := Called(sent, Receive(n + 1));
    h := Seen(made.k, n, m).handle;
    SameHandover(s.k, made.k, o, m, h, got.k);
  }

  lemma MadePair(s: State, o: PairOptions)
    requires Inv(s) && Wanted(s.k, o)
    ensures Enabled(s, Call(CreatePair(o)))
    ensures var u := Called(s, CreatePair(o)).k; PairMade(s.k, o, u, 2, 1) && u.objs[..|s.k.objs|] == s.k.objs
  {
    hide Inv, Alone, PairMade, TokenValid, Exec, Do;
    DoKeeps(s, Call(CreatePair(o)));
    CallThreads(s, CreatePair(o));
    CreatePairAlone(Do(s, Call(CreatePair(o))), |s.threads|, o);
  }

  lemma MadeTables(k: Kernel, u: Kernel, o: PairOptions)
    requires PairMade(k, o, u, 2, 1)
    ensures u.tables == k.tables && |u.objs| == |k.objs| + 2
    ensures u.objs[|k.objs| + 1].body.Channel? && u.objs[|k.objs| + 1].body.got == u.objs[|k.objs| + 1].body.queue == []
    ensures u.objs[|k.objs|].body.Channel? && u.objs[|k.objs|].body.owner == o.clientTable
    ensures u.objs[|k.objs| + 1].body.owner == o.serverTable && u.objs[|k.objs|].body.peer == Some(|k.objs| + 1)
  {
  }

  /** A message sent into an empty queue and received at once. */
  lemma SentThenReceived(s: State, c: Id, m: Msg)
    requires Inv(s) && Accepts(s.k, c, m) && HasRoom(s.k, s.k.objs[c].body.peer.value) && m.transfers && CanCarry(s.k, c, m)
    requires s.k.objs[s.k.objs[c].body.peer.value].body.queue == []
    ensures Enabled(s, Call(SendBegin(c, m))) && Inv(Called(s, SendBegin(c, m)))
    ensures var p, sent := s.k.objs[c].body.peer.value, Called(s, SendBegin(c, m));
            Enabled(sent, Call(Receive(p))) && HandedOver(s.k, c, m, Called(sent, Receive(p)).k)
  {
    hide Inv, Alone, KInv, CanCarry, HandedOver, Exec, Do, ExecReceive;
    var p := s.k.objs[c].body.peer.value;
    CalledKeeps(s, SendBegin(c, m));
    DoKeeps(s, Call(SendBegin(c, m)));
    CallThreads(s, SendBegin(c, m));
    SendThenReceive(Do(s, Call(SendBegin(c, m))), |s.threads|, c, m);
    var sent := Called(s, SendBegin(c, m));
    assert Received(sent.k, p, 0) == sent.k && Received(sent.k, p, 1) == ExecReceive(sent.k, p).0;
    DoKeeps(sent, Call(Receive(p)));
    CallThreads(sent, Receive(p));
    ReceivesOnce(Do(sent, Call(Receive(p))), |sent.threads|, p);
  }

  lemma ReceivesOnce(s: State, i: nat, c: Id)
    requires Inv(s) && i < |s.threads| && s.threads[i] == [Receive(c)]
    ensures IsChannel(s.k, c) && Alone(s, i).k == ExecReceive(s.k, c).0
  {
    hide Inv, Alone, KInv, EntriesHaveObjects;
    OneRegion(s, i, Receive(c));
  }

  lemma SameHandover(k: Kernel, u: Kernel, o: PairOptions, m: Msg, h: nat, v: Kernel)
    requires var n := |k.objs|;
             && u.tables == k.tables && |u.objs| == n + 2 && u.objs[n].body.Channel? && u.objs[n].body.owner == o.clientTable
             && u.objs[n].body.peer == Some(n + 1) && u.objs[n + 1].body.Channel? && u.objs[n + 1].body.owner == o.serverTable
             && u.objs[n + 1].body.got == u.objs[n + 1].body.queue == []
             && Accepts(u, n, m) && m.transfers && CanCarry(u, n, m) && HandedOver(u, n, m, v) && h == Seen(u, n, m).handle
    ensures IsChannel(v, |k.objs| + 1) && v.objs[|k.objs| + 1].body.got == [m.(handle := h)]
    ensures HandleHandedOver(k, o.clientTable, m.handle, v, o.serverTable, h, m.access)
  {
    hide Resolve, CanCarry, Carried;
  }
}
