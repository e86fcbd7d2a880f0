/** Safety over every run of the executive, termination of its cascades, and what follows. */
module ExecutiveTheorems {
  import opened Status
  import opened AccessCheck
  import opened HandleTables
  import opened RingQueue
  import opened Sums
  import opened Executive
  import opened ExecutiveInvariant
  import opened ExecutiveLedger

  ghost function InFlight(s: State, o: Id): nat { Sum(StackHolds(o), s.threads) }
  ghost function Removing(s: State, o: Id): nat { Sum(StackRemoves(o), s.threads) }
  ghost function Carrying(s: State, key: Key): nat { Sum(StackCarries(key), s.threads) }
  ghost function Closing(s: State, o: Id): nat { Sum(StackCloses(o), s.threads) }

  ghost predicate TasksOk(s: State) {
    forall i, j :: 0 <= i < |s.threads| && 0 <= j < |s.threads[i]| ==> TaskOk(s.k, s.threads[i][j])
  }

  /** Every reference is owned by exactly one holder. */
  ghost predicate RefLedger(s: State) {
    forall o :: Refs(s.k, o) == Held(s.k, o) + InFlight(s, o)
  }

  ghost predicate HandleLedger(s: State) {
    forall o :: Handles(s.k, o) == Entries(s.k, o) + Removing(s, o)
  }

  /** Every transferred handle is in exactly one place. */
  ghost predicate KeyLedger(s: State) {
    forall key :: s.k.transferred[key] == Settled(s.k, key) + Queued(s.k, key) + Carrying(s, key)
  }

  ghost predicate DoomLedger(s: State) {
    forall o :: Doomed(s.k, o) ==> Closing(s, o) >= 1
  }

  ghost predicate Inv(s: State) {
    && KInv(s.k) && TasksOk(s)
    && RefLedger(s) && HandleLedger(s) && KeyLedger(s) && DoomLedger(s)
    && s.k.faults == 0
  }

  // ----- One step -----

  lemma EntriesFollow(k: Kernel)
    requires KInv(k)
    ensures EntriesHaveObjects(k)
  {
  }

  /** The measures of all threads after one thread's top task is replaced by `push`. */
  lemma ThreadFlow(threads: seq<seq<Task>>, i: nat, push: seq<Task>, o: Id, key: Key)
    requires i < |threads| && threads[i] != []
    ensures var after := threads[i := push + threads[i][1..]];
            var task := threads[i][0];
            && Sum(StackHolds(o), after) + TaskHolds(o)(task) == Sum(StackHolds(o), threads) + Sum(TaskHolds(o), push)
            && Sum(StackRemoves(o), after) + TaskRemoves(o)(task) == Sum(StackRemoves(o), threads) + Sum(TaskRemoves(o), push)
            && Sum(StackCarries(key), after) + TaskCarries(key)(task) == Sum(StackCarries(key), threads) + Sum(TaskCarries(key), push)
            && Sum(StackCloses(o), after) + TaskCloses(o)(task) == Sum(StackCloses(o), threads) + Sum(TaskCloses(o), push)
            && Sum(StackCost(), after) + TaskCost()(task) == Sum(StackCost(), threads) + Sum(TaskCost(), push)
            && Sum(StackCloses(o), threads) >= TaskCloses(o)(task)
  {
    SumBounds(TaskCloses(o), threads[i], 0);
    SumBounds(StackCloses(o), threads, i);
    hide Sum;
    var stack := threads[i];
    var rest := stack[1..];
    var task := stack[0];
    assert stack == [task] + rest;
    Cons(task, rest, o, key);
    Concat(push, rest, o, key);
    SumUpdate(StackHolds(o), threads, i, push + rest);
    SumUpdate(StackRemoves(o), threads, i, push + rest);
    SumUpdate(StackCarries(key), threads, i, push + rest);
    SumUpdate(StackCloses(o), threads, i, push + rest);
    SumUpdate(StackCost(), threads, i, push + rest);
  }

  lemma SpawnFlow(threads: seq<seq<Task>>, task: Task, o: Id, key: Key)
    ensures var after := threads + [[task]];
            && Sum(StackHolds(o), after) == Sum(StackHolds(o), threads) + TaskHolds(o)(task)
            && Sum(StackRemoves(o), after) == Sum(StackRemoves(o), threads) + TaskRemoves(o)(task)
            && Sum(StackCarries(key), after) == Sum(StackCarries(key), threads) + TaskCarries(key)(task)
            && Sum(StackCloses(o), after) == Sum(StackCloses(o), threads) + TaskCloses(o)(task)
            && Sum(StackCost(), after) == Sum(StackCost(), threads) + TaskCost()(task)
  {
    hide Sum;
    One(task, o, key);
    SumAppend(StackHolds(o), threads, [task]);
    SumAppend(StackRemoves(o), threads, [task]);
    SumAppend(StackCarries(key), threads, [task]);
    SumAppend(StackCloses(o), threads, [task]);
    SumAppend(StackCost(), threads, [task]);
  }

  /** The handles that calls remove are among the references that calls own. */
  lemma RemovesWithinHolds(s: State, i: nat, j: nat, o: Id, d: nat)
    requires i < |s.threads| && j < |s.threads[i]|
    requires TaskRemoves(o)(s.threads[i][j]) + d <= TaskHolds(o)(s.threads[i][j])
    ensures Removing(s, o) + d <= InFlight(s, o)
  {
    forall t | 0 <= t < |s.threads| ensures StackRemoves(o)(s.threads[t]) <= StackHolds(o)(s.threads[t]) {
      SumLe(TaskRemoves(o), TaskHolds(o), s.threads[t]);
    }
    SumGap(TaskRemoves(o), TaskHolds(o), s.threads[i], j, d);
    SumGap(StackRemoves(o), StackHolds(o), s.threads, i, d);
  }

  lemma HoldsAtLeast(s: State, i: nat, j: nat, o: Id)
    requires i < |s.threads| && j < |s.threads[i]|
    ensures InFlight(s, o) >= TaskHolds(o)(s.threads[i][j])
    ensures Removing(s, o) >= TaskRemoves(o)(s.threads[i][j])
  {
    SumBounds(TaskHolds(o), s.threads[i], j);
    SumBounds(StackHolds(o), s.threads, i);
    SumBounds(TaskRemoves(o), s.threads[i], j);
    SumBounds(StackRemoves(o), s.threads, i);
  }

  /** A pending release or removal finds what it gives back: its guards never fail. */
  lemma PendingIsFunded(s: State, i: nat, j: nat)
    requires Inv(s) && i < |s.threads| && j < |s.threads[i]|
    ensures Funded(s.k, s.threads[i][j])
  {
    var task := s.threads[i][j];
    assert TaskOk(s.k, task);
    if task.Release? || task.RemoveHandle? {
      var o := task.obj;
      HoldsAtLeast(s, i, j, o);
      InvObj(s.k, o);
      assert Refs(s.k, o) == Held(s.k, o) + InFlight(s, o);
      assert Handles(s.k, o) == Entries(s.k, o) + Removing(s, o);
      if task.Release? { RemovesWithinHolds(s, i, j, o, 1); }
    }
  }

  lemma StepKeepsTasks(s: State, i: nat)
    requires Inv(s) && Enabled(s, Step(i))
    requires Keeps(s.k, Exec(s.k, s.threads[i][0]))
    ensures KInv(Do(s, Step(i)).k) && TasksOk(Do(s, Step(i))) && Do(s, Step(i)).k.faults == 0
  {
    hide Exec;
    hide KInv, Evolves, TaskOk;
    var u := Do(s, Step(i));
    var push := Exec(s.k, s.threads[i][0]).1;
    forall a, b | 0 <= a < |u.threads| && 0 <= b < |u.threads[a]| ensures TaskOk(u.k, u.threads[a][b]) {
      if a == i && b < |push| {
        assert u.threads[a][b] == push[b];
      } else if a == i {
        assert u.threads[a][b] == s.threads[i][b - |push| + 1];
        TaskOkStable(s.k, u.k, s.threads[i][b - |push| + 1]);
      } else {
        TaskOkStable(s.k, u.k, s.threads[a][b]);
      }
    }
  }

  ghost predicate Balanced(s: State, o: Id, key: Key) {
    && Refs(s.k, o) == Held(s.k, o) + InFlight(s, o)
    && Handles(s.k, o) == Entries(s.k, o) + Removing(s, o)
    && s.k.transferred[key] == Settled(s.k, key) + Queued(s.k, key) + Carrying(s, key)
    && (Doomed(s.k, o) ==> Closing(s, o) >= 1)
  }

  /** All work left to do, whoever does it. */
  ghost function Potential(s: State): nat { KernelCost(s.k) + Sum(StackCost(), s.threads) }

  lemma StepKeepsLedgers(s: State, i: nat, o: Id, key: Key)
    requires KInv(s.k) && Enabled(s, Step(i)) && Funded(s.k, s.threads[i][0])
    requires Balanced(s, o, key)
    ensures Balanced(Do(s, Step(i)), o, key)
    ensures Potential(Do(s, Step(i))) < Potential(s)
  {
    hide KInv, TaskOk, EntriesHaveObjects, Sum, Exec, Held, Entries, Queued, Doomed, KernelCost, Settled, Refs, Handles;
    hide TaskHolds, TaskRemoves, TaskCarries, TaskCost;
    ExecFlow(s.k, s.threads[i][0], o, key);
    ThreadFlow(s.threads, i, Exec(s.k, s.threads[i][0]).1, o, key);
  }

  lemma StepKeeps(s: State, i: nat)
    requires Inv(s) && Enabled(s, Step(i))
    ensures Inv(Do(s, Step(i)))
    ensures Potential(Do(s, Step(i))) < Potential(s)
  {
    hide Exec, Do, Run, Reachable;
    var u := Do(s, Step(i));
    PendingIsFunded(s, i, 0);
    ExecKeeps(s.k, s.threads[i][0]);
    StepKeepsTasks(s, i);
    forall o, key ensures Balanced(u, o, key) {
      AllBalanced(s, o, key);
      StepKeepsLedgers(s, i, o, key);
    }
    StepKeepsLedgers(s, i, 0, (0, 0)) by { AllBalanced(s, 0, (0, 0)); }
    FromBalanced(u);
  }

  lemma AllBalanced(s: State, o: Id, key: Key)
    requires RefLedger(s) && HandleLedger(s) && KeyLedger(s) && DoomLedger(s)
    ensures Balanced(s, o, key)
  {
  }

  lemma FromBalanced(s: State)
    requires forall o, key :: Balanced(s, o, key)
    ensures RefLedger(s) && HandleLedger(s) && KeyLedger(s) && DoomLedger(s)
  {
    forall o ensures Refs(s.k, o) == Held(s.k, o) + InFlight(s, o) { assert Balanced(s, o, (0, 0)); }
    forall o ensures Handles(s.k, o) == Entries(s.k, o) + Removing(s, o) { assert Balanced(s, o, (0, 0)); }
    forall key ensures s.k.transferred[key] == Settled(s.k, key) + Queued(s.k, key) + Carrying(s, key) {
      assert Balanced(s, 0, key);
    }
    forall o | Doomed(s.k, o) ensures Closing(s, o) >= 1 { assert Balanced(s, o, (0, 0)); }
  }

  lemma CallKeeps(s: State, task: Task)
    requires Inv(s) && Enabled(s, Call(task))
    ensures Inv(Do(s, Call(task)))
  {
    hide Exec;
    var u := Do(s, Call(task));
    hide KInv;
    forall a, b | 0 <= a < |u.threads| && 0 <= b < |u.threads[a]| ensures TaskOk(u.k, u.threads[a][b]) {
      if a < |s.threads| { assert u.threads[a] == s.threads[a]; }
    }
    forall o, key ensures Balanced(u, o, key) {
      AllBalanced(s, o, key);
      CallBalanced(s, task, o, key);
    }
    FromBalanced(u);
  }

  lemma CallBalanced(s: State, task: Task, o: Id, key: Key)
    requires IsCall(s.k, task) && Balanced(s, o, key)
    ensures Balanced(s.(threads := s.threads + [[task]]), o, key)
  {
    hide Sum, Held, Entries, Queued, Doomed, Settled, Refs, Handles;
    SpawnFlow(s.threads, task, o, key);
  }

  lemma DropTasks(s: State, x: Id)
    requires TasksOk(s) && Enabled(s, Drop(x)) && Evolves(s.k, Do(s, Drop(x)).k)
    ensures TasksOk(Do(s, Drop(x)))
  {
    hide Exec, Evolves, TaskOk;
    var u := Do(s, Drop(x));
    forall a, b | 0 <= a < |u.threads| && 0 <= b < |u.threads[a]|
      ensures TaskOk(u.k, u.threads[a][b])
    {
      if a < |s.threads| {
        assert u.threads[a] == s.threads[a];
        TaskOkStable(s.k, u.k, s.threads[a][b]);
      } else {
        ReleaseOk(u.k, x);
      }
    }
  }

  lemma ReleaseOk(k: Kernel, o: Id)
    requires o < |k.objs|
    ensures TaskOk(k, Release(o))
  {
  }

  lemma DropKeeps(s: State, x: Id)
    requires Inv(s) && Enabled(s, Drop(x))
    ensures Inv(Do(s, Drop(x)))
  {
    hide Exec, KInv, Evolves, TaskOk, HandleLedger, RefLedger, KeyLedger, DoomLedger;
    var u := Do(s, Drop(x));
    ClientUpdate(s.k, x, s.k.objs[x].client - 1);
    DropTasks(s, x);
    forall o, key ensures Balanced(u, o, key) {
      AllBalanced(s, o, key);
      DropBalanced(s, x, o, key);
    }
    FromBalanced(u);
  }

  lemma DropBalanced(s: State, x: Id, o: Id, key: Key)
    requires x < |s.k.objs| && s.k.objs[x].client > 0 && Balanced(s, o, key)
    ensures Balanced(Do(s, Drop(x)), o, key)
  {
    hide Exec;
    hide Sum, Links, Entries, Queued, KernelCost;
    var y := s.k.objs[x].(client := s.k.objs[x].client - 1);
    HeaderFlow(s.k, x, y, o, key);
    SpawnFlow(s.threads, Release(x), o, key);
  }

  lemma InitialInv()
    ensures Inv(INITIAL)
  {
  }

  /** The invariant holds in every state that any run reaches, whatever callers do and however threads interleave. */
  lemma {:induction false} RunKeeps(s: State, actions: seq<Action>, u: State)
    requires Inv(s) && Run(s, actions, u)
    ensures Inv(u)
    decreases |actions|
  {
    hide Exec, Do;
    if actions != [] {
      DoKeeps(s, actions[0]);
      RunKeeps(Do(s, actions[0]), actions[1..], u);
    }
  }

  lemma DoKeeps(s: State, a: Action)
    requires Inv(s) && Enabled(s, a)
    ensures Inv(Do(s, a))
  {
    hide Exec, Do, Run, Reachable, Enabled;
    hide Inv;
    match a
    case Step(i) => StepKeeps(s, i);
    case Call(task) => CallKeeps(s, task);
    case Drop(o) => DropKeeps(s, o);
  }

  ghost predicate Reachable(s: State) {
    exists actions :: Run(INITIAL, actions, s)
  }

  lemma ReachableInv(s: State)
    requires Reachable(s)
    ensures Inv(s)
  {
    hide Exec, Do, Run;
    var actions :| Run(INITIAL, actions, s);
    InitialInv();
    RunKeeps(INITIAL, actions, s);
  }

  // ----- Reference counts -----

  /** Port queue slots that name an object. */
  ghost function Slots(k: Kernel, o: Id): nat {
    Sum(PortHolds(o), k.objs)
  }

  function PortHolds(o: Id): Obj -> nat {
    (x: Obj) => if x.body.Port? then Occurs(x.body.pending, o) else 0
  }

  function PeerHolds(o: Id): Obj -> nat {
    (x: Obj) => if x.body.Channel? && x.body.peer == Some(o) then 1 else 0
  }

  lemma {:induction false} SumSplit<T>(f: T -> nat, g: T -> nat, h: T -> nat, s: seq<T>)
    requires forall x :: h(x) == f(x) + g(x)
    ensures Sum(h, s) == Sum(f, s) + Sum(g, s)
  {
    if s != [] { SumSplit(f, g, h, s[1..]); }
  }

  /** Only one term can count. */
  lemma {:induction false} SumOnly<T>(f: T -> nat, s: seq<T>, i: nat)
    requires i < |s|
    requires forall j :: 0 <= j < |s| && j != i ==> f(s[j]) == 0
    ensures Sum(f, s) == f(s[i])
  {
    var rest := s[1..];
    assert forall j :: 0 <= j < |rest| ==> rest[j] == s[j + 1];
    if i == 0 {
      SumZero(f, rest);
    } else {
      SumOnly(f, rest, i - 1);
    }
  }

  /** A channel is named by a peer exactly when it has a peer, and then by that one. */
  lemma PeerLinks(k: Kernel, c: Id)
    requires KInv(k) && IsChannel(k, c)
    ensures Sum(PeerHolds(c), k.objs) == if k.objs[c].body.peer.Some? then 1 else 0
  {
    forall j | 0 <= j < |k.objs| && PeerHolds(c)(k.objs[j]) != 0 ensures k.objs[c].body.peer == Some(j) {
      InvObj(k, j);
    }
    InvObj(k, c);
    if k.objs[c].body.peer.Some? {
      SumOnly(PeerHolds(c), k.objs, k.objs[c].body.peer.value);
    } else {
      SumZero(PeerHolds(c), k.objs);
    }
  }

  /**
   * In every reachable state a channel's reference count is the callers' references, its handle
   * count, one for its peer's link, one per port queue slot, and what calls in flight hold.
   */
  lemma ChannelReferences(s: State, c: Id)
    requires Reachable(s) && IsChannel(s.k, c)
    ensures var x := s.k.objs[c];
            x.refs == x.client + x.handles + (if x.body.peer.Some? then 1 else 0) + Slots(s.k, c)
                      + (InFlight(s, c) - Removing(s, c))
  {
    hide Exec, Do, Run, Reachable, Enabled;
    ReachableInv(s);
    AllBalanced(s, c, (0, 0));
    PeerLinks(s.k, c);
    SumSplit(PeerHolds(c), PortHolds(c), ObjHolds(c), s.k.objs);
  }

  /** Holders of a reference: callers, handles, links, queues and calls in flight. */
  ghost function Holders(s: State, o: Id): nat { Held(s.k, o) + InFlight(s, o) }

  /**
   * An object is destroyed exactly when nobody holds a reference; its destroy routine and its
   * last-handle callback run at most once, and the first has run exactly when it is destroyed.
   */
  lemma DestroyedExactlyWhenUnheld(s: State, o: Id)
    requires Reachable(s) && o < |s.k.objs|
    ensures s.k.objs[o].destroyed <==> Holders(s, o) == 0
    ensures s.k.objs[o].destroyRuns == (if s.k.objs[o].destroyed then 1 else 0)
    ensures s.k.objs[o].callbackRuns <= 1
    ensures s.k.objs[o].refs == Holders(s, o)
  {
    hide Exec, Do, Run, Reachable, Enabled;
    ReachableInv(s);
    AllBalanced(s, o, (0, 0));
    InvObj(s.k, o);
  }

  /**
   * While a handle of an object is being removed - its callback included, which runs above the
   * pending release - the object is not destroyed. No pending release ever finds its object gone.
   */
  lemma NotDestroyedInCallback(s: State, i: nat, j: nat)
    requires Reachable(s) && i < |s.threads| && j < |s.threads[i]|
    requires s.threads[i][j].Release? || s.threads[i][j].RemoveHandle?
    ensures s.threads[i][j].obj < |s.k.objs| && !s.k.objs[s.threads[i][j].obj].destroyed
    ensures s.k.faults == 0
  {
    hide Exec, Do, Run, Reachable, Enabled;
    ReachableInv(s);
    PendingIsFunded(s, i, j);
  }

  /** A thread that has work left can always go on. */
  lemma NeverStuck(s: State, i: nat)
    requires Reachable(s) && i < |s.threads| && s.threads[i] != []
    ensures Enabled(s, Step(i))
  {
    hide Exec, Do, Run, Reachable;
    ReachableInv(s);
    EntriesFollow(s.k);
    assert TaskOk(s.k, s.threads[i][0]);
  }

  // ----- Termination -----

  ghost predicate OnlySteps(actions: seq<Action>) {
    forall i :: 0 <= i < |actions| ==> actions[i].Step?
  }

  /**
   * However threads interleave, and however callbacks, destroy routines and drained queues re-enter
   * the tables, the work started by callers ends: no run of steps is longer than the potential of the
   * state it starts from.
   */
  lemma {:induction false} CascadesTerminate(s: State, actions: seq<Action>, u: State)
    requires Inv(s) && Run(s, actions, u) && OnlySteps(actions)
    ensures |actions| + Potential(u) <= Potential(s)
    decreases |actions|
  {
    hide Exec, Do;
    if actions != [] {
      hide Inv, Potential;
      assert actions[0].Step?;
      StepKeeps(s, actions[0].thread);
      assert OnlySteps(actions[1..]);
      CascadesTerminate(Do(s, actions[0]), actions[1..], u);
    }
  }

  ghost predicate Quiet(s: State) {
    forall i :: 0 <= i < |s.threads| ==> s.threads[i] == []
  }

  lemma CanStep(s: State) returns (i: nat)
    requires Inv(s) && !Quiet(s)
    ensures Enabled(s, Step(i))
  {
    hide Exec, Do, Run, Reachable;
    i :| 0 <= i < |s.threads| && s.threads[i] != [];
    EntriesFollow(s.k);
    assert TaskOk(s.k, s.threads[i][0]);
  }

  /** Letting the threads run always reaches a state in which every call has returned. */
  lemma {:induction false} CascadesComplete(s: State) returns (actions: seq<Action>, u: State)
    requires Inv(s)
    ensures Run(s, actions, u) && OnlySteps(actions) && Inv(u) && Quiet(u)
    ensures |actions| <= Potential(s)
    decreases Potential(s)
  {
    hide Inv, Potential, Quiet, Enabled, Do;
    if Quiet(s) {
      return [], s;
    }
    var i := CanStep(s);
    StepKeeps(s, i);
    var rest, end := CascadesComplete(Do(s, Step(i)));
    actions, u := [Step(i)] + rest, end;
    assert actions[1..] == rest;
  }

  // ----- Transferred handles -----

  /**
   * A handle that a send duplicated into the receiver's table is in exactly one place: with a send
   * or a close still in flight, queued once, delivered once, or closed. When no call in flight
   * carries it, it is queued, delivered or closed.
   */
  lemma TransferCustody(s: State, key: Key)
    requires Reachable(s) && key in s.k.transferred
    ensures s.k.delivered[key] + s.k.disposed[key] + Queued(s.k, key) + Carrying(s, key) == 1
    ensures s.k.disposed[key] == 1 ==> Dead(s.k, key)
  {
    hide Exec, Do, Run, Reachable, Enabled;
    ReachableInv(s);
    AllBalanced(s, 0, key);
    InvTransferred(s.k, key);
    if s.k.disposed[key] == 1 { assert Dead(s.k, key); }
  }

  /** Nothing is delivered, queued or disposed of that no send transferred. */
  lemma NoForeignCustody(s: State, key: Key)
    requires Reachable(s) && key !in s.k.transferred
    ensures s.k.delivered[key] == 0 && s.k.disposed[key] == 0 && Queued(s.k, key) == 0
  {
    hide Exec, Do, Run, Reachable, Enabled;
    ReachableInv(s);
    AllBalanced(s, 0, key);
  }

  /** A closed channel queues nothing: what it had queued is closed or on its way to be closed. */
  lemma ClosedChannelIsDrained(s: State, c: Id)
    requires Reachable(s) && IsChannel(s.k, c) && !s.k.objs[c].body.open
    ensures s.k.objs[c].body.queue == [] && s.k.objs[c].body.peer.None?
  {
    hide Exec, Do, Run, Reachable, Enabled;
    ReachableInv(s);
    InvObj(s.k, c);
  }

  /**
   * Once every call has returned, a transferred handle that was never received and that no open
   * channel still queues has been closed: a close strands no handle.
   */
  lemma ClosedQueuesStrandNothing(s: State, key: Key)
    requires Reachable(s) && Quiet(s) && key in s.k.transferred && s.k.delivered[key] == 0
    requires forall c: Id :: IsChannel(s.k, c) && s.k.objs[c].body.open ==> ObjCarries(key)(s.k.objs[c]) == 0
    ensures s.k.disposed[key] == 1 && Dead(s.k, key)
  {
    hide Exec, Do, Run, Reachable, Enabled;
    TransferCustody(s, key);
    SumZero(StackCarries(key), s.threads);
    forall c | 0 <= c < |s.k.objs| ensures ObjCarries(key)(s.k.objs[c]) == 0 {
      if IsChannel(s.k, c) && !s.k.objs[c].body.open { ClosedChannelIsDrained(s, c); }
    }
    SumZero(ObjCarries(key), s.k.objs);
  }

  // ----- Queues and readiness -----

  /**
   * Messages leave a queue in the order in which they entered it, no queue exceeds its limit, only
   * a close drops messages, and a channel or port is signalled exactly when taking from it would
   * not time out.
   */
  lemma QueuesAreFifo(s: State, c: Id)
    requires Reachable(s) && IsChannel(s.k, c)
    ensures var ch := s.k.objs[c].body;
            && ch.sent == ch.got + ch.queue + ch.dropped && (ch.open ==> ch.dropped == [])
            && |ch.queue| <= ch.limit <= QUEUE_CAPACITY
            && (ch.signal == 0 <==> ch.queue == [] && !ch.peerClosed && ch.open)
  {
    hide Exec, Do, Run, Reachable, Enabled;
    ReachableInv(s);
    InvObj(s.k, c);
  }

  /** The same for a port's pending endpoints. */
  lemma PortsAreFifo(s: State, p: Id)
    requires Reachable(s) && IsPort(s.k, p)
    ensures var port := s.k.objs[p].body;
            && port.offered == port.accepted + port.pending + port.refused && (!port.closed ==> port.refused == [])
            && |port.pending| <= port.limit <= QUEUE_CAPACITY
            && (port.signal == 0 <==> port.pending == [] && !port.closed)
  {
    hide Exec, Do, Run, Reachable, Enabled;
    ReachableInv(s);
    InvObj(s.k, p);
  }

  // ----- Whole runs -----

  lemma DoEvolves(s: State, a: Action)
    requires Inv(s) && Enabled(s, a)
    ensures Evolves(s.k, Do(s, a).k)
  {
    hide Exec;
    match a
    case Step(i) =>
      PendingIsFunded(s, i, 0);
      ExecKeeps(s.k, s.threads[i][0]);
    case Call(task) => EvolvesReflexive(s.k);
    case Drop(o) => ClientUpdate(s.k, o, s.k.objs[o].client - 1);
  }

  /** What never goes back, over whole runs: closed stays closed, dead stays dead, queues only move on. */
  lemma {:induction false} RunEvolves(s: State, actions: seq<Action>, u: State)
    requires Inv(s) && Run(s, actions, u)
    ensures Evolves(s.k, u.k)
    decreases |actions|
  {
    hide Exec, Do;
    hide Inv, Evolves;
    if actions == [] {
      EvolvesReflexive(s.k);
    } else {
      DoKeeps(s, actions[0]);
      DoEvolves(s, actions[0]);
      RunEvolves(Do(s, actions[0]), actions[1..], u);
      EvolvesTransitive(s.k, Do(s, actions[0]).k, u.k);
    }
  }

  /**
   * Once the last round of a close_all is done, the table has no active entry, for ever: no lookup,
   * duplication or open through it succeeds, even when callbacks re-entered it during the sweep.
   */
  lemma AfterCloseAll(s: State, i: nat, actions: seq<Action>, u: State)
    requires Reachable(s) && Enabled(s, Step(i)) && s.threads[i][0].CloseAll?
    requires Exec(s.k, s.threads[i][0]).1 == [] && Run(Do(s, Step(i)), actions, u)
    ensures var t := s.threads[i][0].table;
            && t < |u.k.tables| && u.k.tables[t].active == 0 && u.k.tables[t].closing
            && (forall h :: ReferenceEntry(u.k, t, h).None? && Resolve(u.k.tables[t], h).None?)
            && forall o: Id, token, access, origin :: o < |u.k.objs| ==>
                 InsertHandle(u.k, t, o, token, access, origin).None?
  {
    ReachableExtend(s, Step(i));
    SweptStaysSwept(Do(s, Step(i)), actions, u, s.threads[i][0].table);
  }

  lemma SweptStaysSwept(s: State, actions: seq<Action>, u: State, t: TableId)
    requires Reachable(s) && Run(s, actions, u) && t < |s.k.tables| && s.k.tables[t].swept
    ensures t < |u.k.tables| && u.k.tables[t].active == 0 && u.k.tables[t].closing
    ensures forall h :: ReferenceEntry(u.k, t, h).None? && Resolve(u.k.tables[t], h).None?
    ensures forall o: Id, token, access, origin :: o < |u.k.objs| ==> InsertHandle(u.k, t, o, token, access, origin).None?
  {
    hide Exec, Do, Run, Reachable, Enabled;
    ReachableInv(s);
    RunKeeps(s, actions, u);
    RunEvolves(s, actions, u);
    assert TableEvolves(s.k.tables[t], u.k.tables[t]);
    InvTable(u.k, t);
    SumZero(InUse(), u.k.tables[t].entries);
    forall h ensures Resolve(u.k.tables[t], h).None? {
      if Resolve(u.k.tables[t], h).Some? { ResolveNames(u.k.tables[t], h); }
    }
  }

  /** Once closed by anyone, a handle never resolves again in any later state. */
  lemma ClosedHandleStaysClosed(s: State, actions: seq<Action>, u: State, t: TableId, h: nat)
    requires Reachable(s) && Run(s, actions, u)
    requires Issued(s.k, t, h) && Resolve(s.k.tables[t], h).None?
    ensures t < |u.k.tables| && Resolve(u.k.tables[t], h).None?
  {
    hide Exec, Do, Run, Reachable, Enabled;
    ReachableInv(s);
    RunEvolves(s, actions, u);
    assert TableEvolves(s.k.tables[t], u.k.tables[t]);
  }

  // ----- No leaks -----

  /**
   * Peer cycles do not leak: once every call has returned, a channel whose last handle has been
   * closed is severed, and if no caller and no port queue holds it, it has been destroyed.
   */
  lemma NoLeakAfterLastHandle(s: State, c: Id)
    requires Reachable(s) && Quiet(s) && IsChannel(s.k, c) && s.k.objs[c].disabled
    ensures !s.k.objs[c].body.open && s.k.objs[c].body.peer.None?
    ensures s.k.objs[c].refs == s.k.objs[c].client + Slots(s.k, c)
    ensures s.k.objs[c].client == 0 && Slots(s.k, c) == 0 ==> s.k.objs[c].destroyed
  {
    hide Exec, Do, Run, Reachable, Enabled;
    ReachableInv(s);
    AllBalanced(s, c, (0, 0));
    QuietHoldsNothing(s, c);
    InvObj(s.k, c);
    ChannelReferences(s, c);
  }

  lemma QuietHoldsNothing(s: State, o: Id)
    requires Quiet(s)
    ensures InFlight(s, o) == 0 && Removing(s, o) == 0 && Closing(s, o) == 0
  {
    SumZero(StackHolds(o), s.threads);
    SumZero(StackRemoves(o), s.threads);
    SumZero(StackCloses(o), s.threads);
  }

  /** No caller, handle or port queue holds the object. */
  ghost predicate Abandoned(k: Kernel, o: Id) {
    o < |k.objs| && k.objs[o].client == 0 && k.objs[o].handles == 0 && Slots(k, o) == 0
  }

  /**
   * Exactly when an abandoned channel leaks: once every call has returned, a channel that no caller,
   * handle or port queue holds has been destroyed if and only if it or its peer was ever closed.
   */
  lemma AbandonedChannel(s: State, c: Id)
    requires Reachable(s) && Quiet(s) && IsChannel(s.k, c) && Abandoned(s.k, c)
    ensures s.k.objs[c].destroyed <==> !s.k.objs[c].body.open || s.k.objs[c].body.peerClosed
  {
    hide Exec, Do, Run, Reachable, Enabled;
    ReachableInv(s);
    QuietHoldsNothing(s, c);
    InvObj(s.k, c);
    ChannelReferences(s, c);
  }

  /**
   * The same for a pair: two channels that were once linked and are both abandoned after some run are
   * destroyed together, and they are if and only if one of the two was closed.
   */
  lemma AbandonedPair(s: State, actions: seq<Action>, u: State, c: Id, d: Id)
    requires Reachable(s) && IsChannel(s.k, c) && s.k.objs[c].body.peer == Some(d)
    requires Run(s, actions, u) && Quiet(u) && Abandoned(u.k, c) && Abandoned(u.k, d)
    ensures IsChannel(u.k, c) && IsChannel(u.k, d)
    ensures u.k.objs[c].destroyed <==> !u.k.objs[c].body.open || !u.k.objs[d].body.open
    ensures u.k.objs[d].destroyed <==> u.k.objs[c].destroyed
  {
    hide Exec, Do, Run, Reachable, Enabled;
    ReachableInv(s);
    InvObj(s.k, c);
    InvObj(s.k, d);
    RunEvolves(s, actions, u);
    ReachableRun(s, actions, u);
    ReachableInv(u);
    assert LinkEvolves(s.k, u.k, c) && LinkEvolves(s.k, u.k, d);
    InvObj(u.k, c);
    InvObj(u.k, d);
    AbandonedChannel(u, c);
    AbandonedChannel(u, d);
  }

  lemma {:induction false} ReachableRun(s: State, actions: seq<Action>, u: State)
    requires Reachable(s) && Run(s, actions, u)
    ensures Reachable(u)
    decreases |actions|
  {
    hide Exec, Do;
    if actions != [] {
      ReachableExtend(s, actions[0]);
      ReachableRun(Do(s, actions[0]), actions[1..], u);
    }
  }

  lemma {:induction false} RunExtend(s: State, actions: seq<Action>, u: State, a: Action)
    requires Run(s, actions, u) && Enabled(u, a)
    ensures Run(s, actions + [a], Do(u, a))
    decreases |actions|
  {
    hide Exec, Do;
    if actions == [] {
      assert actions + [a] == [a];
      assert [a][1..] == [];
      assert Run(Do(u, a), [], Do(u, a));
    } else {
      assert (actions + [a])[1..] == actions[1..] + [a];
      RunExtend(Do(s, actions[0]), actions[1..], u, a);
    }
  }

  lemma ReachableExtend(s: State, a: Action)
    requires Reachable(s) && Enabled(s, a)
    ensures Reachable(Do(s, a))
  {
    hide Exec, Do, Run;
    var actions :| Run(INITIAL, actions, s);
    RunExtend(INITIAL, actions, s, a);
  }

  lemma ReachTable() returns (s: State)
    ensures Reachable(s) && s.threads == [[]] && s.k == INITIAL.k.(tables := [Fresh(1)])
  {
    assert Reachable(INITIAL) by { assert Run(INITIAL, [], INITIAL); }
    hide Run;
    var s1 := Do(INITIAL, Call(CreateTable(1)));
    ReachableExtend(INITIAL, Call(CreateTable(1)));
    s := Do(s1, Step(0));
    ReachableExtend(s1, Step(0));
    assert s.threads[0] == [];
  }

  lemma ReachPair(token: Token, security: Descriptor) returns (s: State)
    requires TokenValid(token)
    ensures Reachable(s) && s.threads == [[], []] && |s.k.objs| == 2
    ensures s.k.objs[0] == NewObj(NewChannel(1, 0, token, 1), Some(security), 2, 1)
    ensures s.k.objs[1] == NewObj(NewChannel(0, 0, token, 1), Some(security), 2, 1)
  {
    var s2 := ReachTable();
    var task := CreatePair(PairOptions(1, 0, 0, token, token, security, security));
    hide Run, TableValid, Exec, Fresh;
    var s3 := Do(s2, Call(task));
    ReachableExtend(s2, Call(task));
    assert s3.threads == [[], [task]] && s3.threads[1] == [task];
    CreatesPair(s3.k, token, security);
    s := Do(s3, Step(1));
    assert s.threads[1] == [];
    ReachableExtend(s3, Step(1));
  }

  lemma CreatesPair(k: Kernel, token: Token, security: Descriptor)
    requires TokenValid(token) && k == INITIAL.k.(tables := [Fresh(1)])
    ensures EntriesHaveObjects(k)
    ensures var (k', push) := Exec(k, CreatePair(PairOptions(1, 0, 0, token, token, security, security)));
            && push == [] && k'.tables == k.tables && |k'.objs| == 2
            && k'.objs[0] == NewObj(NewChannel(1, 0, token, 1), Some(security), 2, 1)
            && k'.objs[1] == NewObj(NewChannel(0, 0, token, 1), Some(security), 2, 1)
  {
    FreshValid(1);
    hide TableValid, Fresh;
  }

  lemma ReleaseOne(k: Kernel, o: Id)
    requires EntriesHaveObjects(k) && o < |k.objs| && k.objs[o].refs == 2 && !k.objs[o].destroyed
    ensures TaskOk(k, Release(o)) && Exec(k, Release(o)) == (SetObj(k, o, k.objs[o].(refs := 1)), [])
  {
  }

  /** One end of a pair that no handle was ever opened for is dropped by its creator. */
  lemma DropEnd(s: State, o: Id) returns (u: State)
    requires Reachable(s) && o < |s.k.objs| && s.k.objs[o].client == 1 && s.k.objs[o].refs == 2 && !s.k.objs[o].destroyed
    ensures Reachable(u) && u.threads == s.threads + [[]]
    ensures u.k.objs == s.k.objs[o := s.k.objs[o].(client := 0, refs := 1)]
  {
    hide Run, TableValid, Exec, TaskOk, EntriesHaveObjects, Inv, KInv, Reachable;
    var v := Do(s, Drop(o));
    ReachableExtend(s, Drop(o));
    ReachableEntries(v);
    var n := |s.threads|;
    assert v.threads == s.threads + [[Release(o)]] && v.threads[n] == [Release(o)];
    ReleaseOne(v.k, o);
    ReachableExtend(v, Step(n));
    u := Do(v, Step(n));
    assert [] + v.threads[n][1..] == [];
    assert u.threads == s.threads + [[]];
  }

  lemma ReachableEntries(s: State)
    requires Reachable(s)
    ensures EntriesHaveObjects(s.k)
  {
    hide Run, TableValid;
    ReachableInv(s);
    EntriesFollow(s.k);
  }

  /** A pair whose two ends are dropped without ever having had a handle keeps itself alive. */
  lemma UnhandledPairLeaks(token: Token, security: Descriptor) returns (s: State)
    requires TokenValid(token)
    ensures Reachable(s) && Quiet(s) && IsChannel(s.k, 0) && IsChannel(s.k, 1)
    ensures Abandoned(s.k, 0) && Abandoned(s.k, 1)
    ensures !s.k.objs[0].destroyed && s.k.objs[0].refs == 1 && s.k.objs[0].body.peer == Some(1)
    ensures !s.k.objs[1].destroyed && s.k.objs[1].refs == 1 && s.k.objs[1].body.peer == Some(0)
  {
    hide Exec, Do, Run, Reachable, Enabled;
    var s1 := ReachPair(token, security);
    hide Run, Reachable, Enabled, Do;
    var s2 := DropEnd(s1, 0);
    s := DropEnd(s2, 1);
    assert s.threads == [[], [], [], []];
    assert s.k.objs[0].body.Channel? && s.k.objs[1].body.Channel?;
    SumZero(PortHolds(0), s.k.objs);
    SumZero(PortHolds(1), s.k.objs);
  }

  // ----- Access -----

  /** An open, a duplication or a transfer stores exactly the mask that was checked, for that object. */
  lemma InsertedEntry(k: Kernel, t: TableId, o: Id, token: Token, access: Mask, origin: Mask)
    requires KInv(k) && t < |k.tables| && o < |k.objs| && access <= origin
    requires InsertHandle(k, t, o, token, access, origin).Some?
    ensures var (k', h) := InsertHandle(k, t, o, token, access, origin).value;
            && Resolve(k'.tables[t], h).Some?
            && var e := k'.tables[t].entries[Resolve(k'.tables[t], h).value];
               e.obj == Some(o) && e.access == access && e.origin == origin
    ensures ArgumentsValid(k.objs[o].security, Some(token), access) && Permits(k.objs[o].security.value, token, access)
    ensures !k.tables[t].closing && !k.objs[o].disabled && !k.objs[o].destroyed
  {
    InvTable(k, t);
    FillIsFresh(k.tables[t], FirstFree(k.tables[t].entries, 0), o, access, origin);
  }

  /** A caller gains a reference from a lookup only through a live handle that grants what it asks. */
  lemma LookupChecks(k: Kernel, t: TableId, h: nat, access: Mask, kind: Kind, o: Id)
    requires KInv(k) && t < |k.tables| && o < |k.objs|
    requires ExecLookup(k, t, h, access, kind).0.objs[o].client > k.objs[o].client
    ensures !k.tables[t].closing && Resolve(k.tables[t], h).Some?
    ensures var e := k.tables[t].entries[Resolve(k.tables[t], h).value];
            e.obj == Some(o) && access <= e.access && (kind == AnyKind || kind == KindOf(k.objs[o].body))
  {
    hide KInv;
    var r := ReferenceEntry(k, t, h);
    if r.Some? { KeepsReferenceEntry(k, t, h); }
  }

  /** A duplication, and so a transfer, never asks for more than its source handle grants. */
  lemma TransferNeverWidens(k: Kernel, src: TableId, h: nat, dst: TableId, token: Token, access: Mask, same: bool, cont: Cont)
    requires KInv(k) && src < |k.tables|
    requires var push := ExecDupSource(k, src, h, dst, token, access, same, cont).1; push != [] && push[0].DupTarget?
    ensures var push := ExecDupSource(k, src, h, dst, token, access, same, cont).1;
            && Resolve(k.tables[src], h).Some?
            && var e := k.tables[src].entries[Resolve(k.tables[src], h).value];
               push[0].access <= e.access && push[0].origin == e.origin && push[0].access <= push[0].origin
  {
    hide KInv, Evolves, TableValid;
    if cont.IntoSend? {}
    KeepsReferenceEntry(k, src, h);
  }

  /** Along any chain of duplications and transfers the granted mask stays within the first grant. */
  lemma GrantsNeverGrow(s: State, t: TableId, h: nat)
    requires Reachable(s) && t < |s.k.tables| && Resolve(s.k.tables[t], h).Some?
    ensures var e := s.k.tables[t].entries[Resolve(s.k.tables[t], h).value];
            e.access <= e.origin && e.access != {}
  {
    hide Exec, Do, Run, Reachable, Enabled;
    ReachableInv(s);
    InvEntry(s.k, t, h);
  }
}
