/**
 Every interleaving of the lock regions of accept and remove. An action is one region of one call,
 taken by whichever thread; a run is any list of actions, and an action that is not possible where
 it stands does nothing.
 */
module ConnectionRuns {
  import opened Wrappers
  import opened ConnectionTables

  datatype AcceptStage = Handed | Registered | Attached | SessionKnown | WorkerKnown

  datatype RemoveStage = Detached | Unregistered | WorkerForgotten | SessionForgotten | Abandoned

  datatype Task =
    | Accepting(fd: Fd, accept: AcceptStage, id: Id, bev: Bev)
    | Removing(fd: Fd, remove: RemoveStage, bev: Bev)
    | Finished

  datatype State = State(
    tables: Tables,
    open: set<Fd>,              // descriptors the kernel will not hand out
    tasks: map<nat, Task>,
    used: set<Bev>,             // bufferevents ever created
    freed: seq<Bev>,            // calls of bufferevent_free, in order
    duplicateThrown: bool,      // accept threw "already has a bufferevent struct"
    nestedClosed: bool)         // a close handler's close found a bufferevent

  const START := State(EMPTY, {}, map[], {}, [], false, false)

  datatype Action =
    | Hand(task: nat, fd: Fd)                // the kernel accepts a connection
    | Refuse(task: nat)                      // a TLS server's IP filter closes it
    | RegisterId(task: nat, id: Id)
    | AttachEvent(task: nat, bev: Bev)
    | AddSession(task: nat)
    | AddWorker(task: nat)
    | AddInstance(task: nat)
    | DetachEvent(task: nat, bev: Bev)
    | UnregisterId(task: nat)
    | ForgetWorker(task: nat)
    | ForgetSession(task: nat)
    | Free(task: nat)

  function Apply(s: State, a: Action, tls: bool): State {
    match a
    case Hand(k, fd) =>
      if k in s.tasks || fd in s.open then s
      else s.(open := s.open + {fd}, tasks := s.tasks[k := Accepting(fd, Handed, 0, 0)])
    case DetachEvent(k, bev) =>
      if k in s.tasks then s else
      (match Detach(s.tables, bev)
       case None => s  // the lookup throws before anything is changed
       case Some(t) =>
         s.(tables := t,
            tasks := s.tasks[k := Removing(s.tables.bufferEventDescriptors[bev], Detached, bev)]))
    case _ =>
      if a.task !in s.tasks then s
      else if s.tasks[a.task].Accepting? then ApplyAccept(s, a, tls)
      else if s.tasks[a.task].Removing? then ApplyRemove(s, a, tls)
      else s
  }

  function ApplyAccept(s: State, a: Action, tls: bool): State
    requires a.task in s.tasks && s.tasks[a.task].Accepting?
  {
    var k, task, t := a.task, s.tasks[a.task], s.tables;
    match a
    case Refuse(_) =>
      if tls && task.accept == Handed
      then s.(open := s.open - {task.fd}, tasks := s.tasks[k := Finished]) else s
    case RegisterId(_, id) =>
      if task.accept == Handed && MayAllocate(t, id)
      then s.(tables := Register(t, task.fd, id), tasks := s.tasks[k := task.(accept := Registered, id := id)])
      else s
    case AttachEvent(_, bev) =>
      if task.accept != Registered || bev in s.used then s else
      (match Attach(t, task.fd, bev)
       case None => s.(used := s.used + {bev}, duplicateThrown := true, tasks := s.tasks[k := Finished])
       case Some(u) => s.(tables := u, used := s.used + {bev},
                          tasks := s.tasks[k := task.(accept := Attached, bev := bev)]))
    case AddSession(_) =>
      if tls && task.accept == Attached
      then s.(tables := t.(ssls := t.ssls + {task.fd}), tasks := s.tasks[k := task.(accept := SessionKnown)])
      else s
    case AddWorker(_) =>
      if task.accept == (if tls then SessionKnown else Attached)
      then s.(tables := t.(workerMap := t.workerMap + {task.bev}), tasks := s.tasks[k := task.(accept := WorkerKnown)])
      else s
    case AddInstance(_) =>
      if task.accept == WorkerKnown
      then s.(tables := t.(allClients := t.allClients + {task.id}), tasks := s.tasks[k := Finished])
      else s
    case _ => s
  }

  function ApplyRemove(s: State, a: Action, tls: bool): State
    requires a.task in s.tasks && s.tasks[a.task].Removing?
  {
    var k, task, t := a.task, s.tasks[a.task], s.tables;
    match a
    case UnregisterId(_) =>
      if task.remove != Detached then s
      else if task.fd !in t.clients || t.clients[task.fd] !in t.allClients then
        s.(tasks := s.tasks[k := task.(remove := Abandoned)])  // a lookup throws in the region
      else
        s.(nestedClosed := s.nestedClosed || FindForClose(t, t.clients[task.fd]).Some?,
           tables := Unregister(t, task.fd), tasks := s.tasks[k := task.(remove := Unregistered)])
    case ForgetWorker(_) =>
      if task.remove == Unregistered
      then s.(tables := t.(workerMap := t.workerMap - {task.bev}), tasks := s.tasks[k := task.(remove := WorkerForgotten)])
      else s
    case ForgetSession(_) =>
      if tls && task.remove == WorkerForgotten
      then s.(tables := t.(ssls := t.ssls - {task.fd}), tasks := s.tasks[k := task.(remove := SessionForgotten)])
      else s
    case Free(_) =>
      if task.remove == (if tls then SessionForgotten else WorkerForgotten)
      then s.(open := s.open - {task.fd}, freed := s.freed + [task.bev], tasks := s.tasks[k := Finished])
      else s
    case _ => s
  }

  function Exec(actions: seq<Action>, tls: bool): State {
    if actions == [] then START
    else Apply(Exec(actions[..|actions| - 1], tls), actions[|actions| - 1], tls)
  }

  /** The largest number of connections registered at one time during a run. */
  function Peak(actions: seq<Action>, tls: bool): nat {
    if actions == [] then 0 else
    var before, now := Peak(actions[..|actions| - 1], tls), |Exec(actions, tls).tables.descriptors|;
    if before < now then now else before
  }

  // ---- The invariant ----

  /** A task that is between the kernel and the bufferevent table has its descriptor to itself. */
  predicate Owns(t: Task) {
    t.Removing? || (t.Accepting? && t.accept in {Handed, Registered})
  }

  /** The owned descriptor still has a client ID. */
  predicate HasId(t: Task) {
    || (t.Accepting? && t.accept == Registered)
    || (t.Removing? && t.remove in {Detached, Abandoned})
  }

  predicate OwnershipHolds(s: State) {
    && (forall k :: k in s.tasks && Owns(s.tasks[k]) ==>
          && s.tasks[k].fd in s.open
          && s.tasks[k].fd !in s.tables.bufferEvents
          && (s.tasks[k].fd in s.tables.clients <==> HasId(s.tasks[k])))
    && (forall j, k :: j in s.tasks && k in s.tasks && j != k && Owns(s.tasks[j]) && Owns(s.tasks[k]) ==>
          s.tasks[j].fd != s.tasks[k].fd)
  }

  predicate BufferEventsHold(s: State) {
    && (forall b :: b in s.tables.bufferEventDescriptors ==> b in s.used && b !in s.freed)
    && (forall b :: b in s.freed ==> b in s.used)
    && (forall k :: k in s.tasks && s.tasks[k].Removing? ==>
          && s.tasks[k].bev in s.used && s.tasks[k].bev !in s.freed
          && s.tasks[k].bev !in s.tables.bufferEventDescriptors)
    && (forall j, k :: j in s.tasks && k in s.tasks && j != k && s.tasks[j].Removing? && s.tasks[k].Removing? ==>
          s.tasks[j].bev != s.tasks[k].bev)
  }

  /** What is promised of the tables, whatever the interleaving. */
  predicate Safe(s: State) {
    && MutuallyInverse(s.tables.clients, s.tables.descriptors)
    && MutuallyInverse(s.tables.bufferEvents, s.tables.bufferEventDescriptors)
    && (forall fd :: fd in s.tables.bufferEvents ==> fd in s.tables.clients)
    && IdsPartitioned(s.tables)
    && !s.duplicateThrown
    && !s.nestedClosed
    && NoDuplicates(s.freed)
  }

  predicate Inv(s: State) {
    && Safe(s)
    && OwnershipHolds(s)
    && BufferEventsHold(s)
    && (forall fd :: fd in s.tables.clients ==> fd in s.open)
  }

  lemma HandKeeps(s: State, k: nat, fd: Fd, tls: bool)
    requires Inv(s)
    ensures Inv(Apply(s, Hand(k, fd), tls))
  {
    hide MutuallyInverse, IdsPartitioned;
  }

  lemma DetachKeeps(s: State, k: nat, bev: Bev, tls: bool)
    requires Inv(s)
    ensures Inv(Apply(s, DetachEvent(k, bev), tls))
  {
    if k !in s.tasks && bev in s.tables.bufferEventDescriptors {
      DetachTables(s.tables, bev);
      IdsPartitionedBy(s.tables, Detach(s.tables, bev).value);
      hide MutuallyInverse, IdsPartitioned;
    }
  }

  lemma RegisterKeeps(s: State, k: nat, id: Id, tls: bool)
    requires Inv(s)
    ensures Inv(Apply(s, RegisterId(k, id), tls))
  {
    if k in s.tasks && s.tasks[k].Accepting? && s.tasks[k].accept == Handed && MayAllocate(s.tables, id) {
      RegisterTables(s.tables, s.tasks[k].fd, id);
      hide MutuallyInverse, IdsPartitioned, Register, MayAllocate;
      var after := s.(tables := Register(s.tables, s.tasks[k].fd, id),
                      tasks := s.tasks[k := s.tasks[k].(accept := Registered, id := id)]);
      assert OwnershipHolds(after) by {
        hide BufferEventsHold;
      }
      assert BufferEventsHold(after) by {
        hide OwnershipHolds;
      }
      hide OwnershipHolds, BufferEventsHold;
    }
  }

  lemma AttachKeeps(s: State, k: nat, bev: Bev, tls: bool)
    requires Inv(s)
    ensures Inv(Apply(s, AttachEvent(k, bev), tls))
  {
    if k in s.tasks && s.tasks[k].Accepting? && s.tasks[k].accept == Registered && bev !in s.used {
      AttachTables(s.tables, s.tasks[k].fd, bev);
      assert Attach(s.tables, s.tasks[k].fd, bev).Some?;
      IdsPartitionedBy(s.tables, Attach(s.tables, s.tasks[k].fd, bev).value);
      hide MutuallyInverse, IdsPartitioned, Attach;
      var after := s.(tables := Attach(s.tables, s.tasks[k].fd, bev).value, used := s.used + {bev},
                      tasks := s.tasks[k := s.tasks[k].(accept := Attached, bev := bev)]);
      assert OwnershipHolds(after) by {
        hide BufferEventsHold;
      }
      assert BufferEventsHold(after) by {
        hide OwnershipHolds;
      }
      hide OwnershipHolds, BufferEventsHold;
    }
  }

  /** The nested close of a removal: the descriptor is still registered but no longer attached. */
  lemma UnregisterKeeps(s: State, k: nat, tls: bool)
    requires Inv(s)
    ensures Inv(Apply(s, UnregisterId(k), tls))
  {
    if k in s.tasks && s.tasks[k].Removing? && s.tasks[k].remove == Detached {
      var fd := s.tasks[k].fd;
      if s.tables.clients[fd] in s.tables.allClients {
        UnregisterTables(s.tables, fd);
        assert FindForClose(s.tables, s.tables.clients[fd]) == None;
        hide MutuallyInverse, IdsPartitioned, Unregister, FindForClose;
      } else {
        Restages(s, k, s.tasks[k].(remove := Abandoned), s.tables);
      }
    }
  }

  lemma FreeKeeps(s: State, k: nat, tls: bool)
    requires Inv(s)
    ensures Inv(Apply(s, Free(k), tls))
  {
    hide MutuallyInverse, IdsPartitioned;
  }

  lemma RefuseKeeps(s: State, k: nat, tls: bool)
    requires Inv(s)
    ensures Inv(Apply(s, Refuse(k), tls))
  {
    hide MutuallyInverse, IdsPartitioned;
  }

  /** A step that moves a task on without taking or giving up a descriptor or a bufferevent. */
  lemma Restages(s: State, k: nat, task: Task, t: Tables)
    requires Inv(s) && k in s.tasks
    requires Owns(task) ==> Owns(s.tasks[k]) && task.fd == s.tasks[k].fd && (HasId(task) <==> HasId(s.tasks[k]))
    requires task.Removing? ==> s.tasks[k].Removing? && task.bev == s.tasks[k].bev
    requires t == s.tables.(allClients := t.allClients, workerMap := t.workerMap, ssls := t.ssls)
    ensures Inv(s.(tables := t, tasks := s.tasks[k := task]))
  {
    hide MutuallyInverse, IdsPartitioned;
    var u := s.tables;
    assert IdsPartitioned(t) by {
      IdsPartitionedBy(u, t);
    }
  }

  lemma AddKeeps(s: State, a: Action, tls: bool)
    requires Inv(s)
    requires a.AddSession? || a.AddWorker? || a.AddInstance?
    ensures Inv(Apply(s, a, tls))
  {
    var k := a.task;
    var after := Apply(s, a, tls);
    if after != s {
      Restages(s, k, after.tasks[k], after.tables);
      hide Inv;
      assert after == s.(tables := after.tables, tasks := s.tasks[k := after.tasks[k]]);
    }
  }

  lemma ForgetKeeps(s: State, a: Action, tls: bool)
    requires Inv(s)
    requires a.ForgetWorker? || a.ForgetSession?
    ensures Inv(Apply(s, a, tls))
  {
    var k := a.task;
    var after := Apply(s, a, tls);
    if after != s {
      Restages(s, k, after.tasks[k], after.tables);
      hide Inv;
      assert after == s.(tables := after.tables, tasks := s.tasks[k := after.tasks[k]]);
    }
  }

  lemma ApplyKeeps(s: State, a: Action, tls: bool)
    requires Inv(s)
    ensures Inv(Apply(s, a, tls))
  {
    hide Inv, Apply;
    match a
    case Hand(k, fd) => HandKeeps(s, k, fd, tls);
    case DetachEvent(k, bev) => DetachKeeps(s, k, bev, tls);
    case RegisterId(k, id) => RegisterKeeps(s, k, id, tls);
    case AttachEvent(k, bev) => AttachKeeps(s, k, bev, tls);
    case UnregisterId(k) => UnregisterKeeps(s, k, tls);
    case Free(k) => FreeKeeps(s, k, tls);
    case Refuse(k) => RefuseKeeps(s, k, tls);
    case ForgetWorker(_) => ForgetKeeps(s, a, tls);
    case ForgetSession(_) => ForgetKeeps(s, a, tls);
    case _ => AddKeeps(s, a, tls);
  }

  lemma {:induction false} ExecInv(actions: seq<Action>, tls: bool)
    ensures Inv(Exec(actions, tls))
  {
    if actions != [] {
      hide Inv, Apply;
      ExecInv(actions[..|actions| - 1], tls);
      ApplyKeeps(Exec(actions[..|actions| - 1], tls), actions[|actions| - 1], tls);
    }
  }

  /** Whatever the threads do and in whatever order their lock regions fall. */
  lemma TablesAlwaysSafe(actions: seq<Action>, tls: bool)
    ensures Safe(Exec(actions, tls))
  {
    ExecInv(actions, tls);
  }

  /** What the two flags of the model stand for never happens: in every state that a run can reach, an accept
      that is about to attach finds its descriptor free, and the client of a removal that is about to give its
      ID back is found by no close. */
  lemma NothingDouble(actions: seq<Action>, tls: bool, k: nat)
    requires k in Exec(actions, tls).tasks
    ensures var s := Exec(actions, tls);
            var task, t := s.tasks[k], s.tables;
            && (task.Accepting? && task.accept == Registered ==> task.fd in t.clients && task.fd !in t.bufferEvents)
            && (task.Removing? && task.remove == Detached ==>
                  task.fd in t.clients && FindForClose(t, t.clients[task.fd]) == None)
  {
    ExecInv(actions, tls);
    hide Exec, IdsPartitioned, BufferEventsHold;
  }

  // ---- A call that nobody disturbs ----

  /** All regions of one accept. */
  function WholeAccept(s: State, k: nat, fd: Fd, id: Id, bev: Bev, tls: bool): State {
    var registered := Apply(Apply(s, Hand(k, fd), tls), RegisterId(k, id), tls);
    var attached := Apply(Apply(registered, AttachEvent(k, bev), tls), AddSession(k), tls);
    Apply(Apply(attached, AddWorker(k), tls), AddInstance(k), tls)
  }

  /** All regions of one removal. */
  function WholeRemove(s: State, k: nat, bev: Bev, tls: bool): State {
    var detached := Apply(s, DetachEvent(k, bev), tls);
    var forgotten := Apply(Apply(detached, UnregisterId(k), tls), ForgetWorker(k), tls);
    Apply(Apply(forgotten, ForgetSession(k), tls), Free(k), tls)
  }

  /** An accept that nobody disturbs does what `Server.Accept` promises. */
  lemma LoneAccept(s: State, k: nat, fd: Fd, id: Id, bev: Bev, tls: bool)
    requires Inv(s) && k !in s.tasks && fd !in s.open && bev !in s.used && MayAllocate(s.tables, id)
    ensures WholeAccept(s, k, fd, id, bev, tls)
         == s.(tables := Accepted(s.tables, fd, id, bev, tls), open := s.open + {fd}, used := s.used + {bev},
               tasks := s.tasks[k := Finished])
  {
    var t1 := Register(s.tables, fd, id);
    RegisterTables(s.tables, fd, id);
    assert fd !in t1.bufferEvents;
    hide Inv, MutuallyInverse, IdsPartitioned, MayAllocate, Register;
    var s1 := s.(open := s.open + {fd}, tasks := s.tasks[k := Accepting(fd, Handed, 0, 0)]);
    assert Apply(s, Hand(k, fd), tls) == s1;
    var s2 := s1.(tables := t1, tasks := s.tasks[k := Accepting(fd, Registered, id, 0)]);
    Retasked(s, k, Accepting(fd, Handed, 0, 0), Accepting(fd, Registered, id, 0));
    assert Apply(s1, RegisterId(k, id), tls) == s2;
    AcceptEnds(s, s2, k, fd, id, bev, tls);
  }

  lemma Retasked(s: State, k: nat, first: Task, second: Task)
    ensures s.tasks[k := first][k := second] == s.tasks[k := second]
  {
  }

  lemma AcceptEnds(s: State, t: State, k: nat, fd: Fd, id: Id, bev: Bev, tls: bool)
    requires t.tasks == s.tasks[k := Accepting(fd, Registered, id, 0)]
    requires fd !in t.tables.bufferEvents && bev !in t.used
    ensures var u := t.tables;
            Apply(Apply(Apply(Apply(t, AttachEvent(k, bev), tls), AddSession(k), tls), AddWorker(k), tls), AddInstance(k), tls)
            == t.(tables := u.(bufferEvents := u.bufferEvents[fd := bev],
                               bufferEventDescriptors := Emplace(u.bufferEventDescriptors, bev, fd),
                               ssls := if tls then u.ssls + {fd} else u.ssls,
                               workerMap := u.workerMap + {bev}, allClients := u.allClients + {id}),
                  used := t.used + {bev}, tasks := s.tasks[k := Finished])
  {
    var a := Accepting(fd, Attached, id, bev);
    var u := t.tables.(bufferEvents := t.tables.bufferEvents[fd := bev],
                       bufferEventDescriptors := Emplace(t.tables.bufferEventDescriptors, bev, fd));
    hide Emplace;
    var t1 := t.(tables := u, used := t.used + {bev}, tasks := s.tasks[k := a]);
    Retasked(s, k, Accepting(fd, Registered, id, 0), a);
    assert Apply(t, AttachEvent(k, bev), tls) == t1;
    hide Apply;
    AddsAfterAttach(s, t1, k, a, tls);
  }

  lemma AddsAfterAttach(s: State, t: State, k: nat, a: Task, tls: bool)
    requires a.Accepting? && a.accept == Attached && t.tasks == s.tasks[k := a]
    ensures var u := t.tables;
            Apply(Apply(Apply(t, AddSession(k), tls), AddWorker(k), tls), AddInstance(k), tls)
            == t.(tables := u.(ssls := if tls then u.ssls + {a.fd} else u.ssls,
                               workerMap := u.workerMap + {a.bev}, allClients := u.allClients + {a.id}),
                  tasks := s.tasks[k := Finished])
  {
    var u, b, c := t.tables, a.(accept := SessionKnown), a.(accept := WorkerKnown);
    var v := if tls then u.(ssls := u.ssls + {a.fd}) else u;
    var t2 := t.(tables := v, tasks := if tls then s.tasks[k := b] else s.tasks[k := a]);
    Retasked(s, k, a, b);
    assert Apply(t, AddSession(k), tls) == t2;
    var t3 := t2.(tables := v.(workerMap := v.workerMap + {a.bev}), tasks := s.tasks[k := c]);
    Retasked(s, k, if tls then b else a, c);
    assert Apply(t2, AddWorker(k), tls) == t3;
    Retasked(s, k, c, Finished);
  }

  /** A removal that nobody disturbs does what `Server.Remove` promises, when its connection is complete. */
  lemma LoneRemove(s: State, k: nat, bev: Bev, tls: bool)
    requires Inv(s) && k !in s.tasks && bev in s.tables.bufferEventDescriptors
    requires var fd := s.tables.bufferEventDescriptors[bev];
             fd in s.tables.clients ==> s.tables.clients[fd] in s.tables.allClients && (!tls ==> fd !in s.tables.ssls)
    ensures s.tables.bufferEventDescriptors[bev] in s.tables.clients
    ensures WholeRemove(s, k, bev, tls)
         == s.(tables := Removed(s.tables, bev), open := s.open - {s.tables.bufferEventDescriptors[bev]},
               freed := s.freed + [bev], tasks := s.tasks[k := Finished])
  {
    DetachedAlone(s, bev);
    hide Inv;
    hide FindForClose, Unregister;
    var fd := s.tables.bufferEventDescriptors[bev];
    var a, b, c, d := Removing(fd, Detached, bev), Removing(fd, Unregistered, bev), Removing(fd, WorkerForgotten, bev),
                      Removing(fd, SessionForgotten, bev);
    var u := Detach(s.tables, bev).value;
    var s1 := s.(tables := u, tasks := s.tasks[k := a]);
    assert Apply(s, DetachEvent(k, bev), tls) == s1;
    var v := Unregister(u, fd);
    var s2 := s1.(tables := v, tasks := s.tasks[k := b]);
    Retasked(s, k, a, b);
    assert Apply(s1, UnregisterId(k), tls) == s2;
    SameOthers(u, fd);
    RemoveEnds(s, s2, k, fd, bev, tls);
  }

  lemma DetachedAlone(s: State, bev: Bev)
    requires Inv(s) && bev in s.tables.bufferEventDescriptors
    ensures var fd := s.tables.bufferEventDescriptors[bev];
            fd in s.tables.clients && FindForClose(Detach(s.tables, bev).value, s.tables.clients[fd]) == None
  {
    hide OwnershipHolds, BufferEventsHold, IdsPartitioned;
  }

  lemma SameOthers(t: Tables, fd: Fd)
    requires fd in t.clients
    ensures Unregister(t, fd).workerMap == t.workerMap && Unregister(t, fd).ssls == t.ssls
  {
  }

  lemma RemoveEnds(s: State, t: State, k: nat, fd: Fd, bev: Bev, tls: bool)
    requires t.tasks == s.tasks[k := Removing(fd, Unregistered, bev)]
    requires !tls ==> fd !in t.tables.ssls
    ensures Apply(Apply(Apply(t, ForgetWorker(k), tls), ForgetSession(k), tls), Free(k), tls)
         == t.(tables := t.tables.(workerMap := t.tables.workerMap - {bev}, ssls := t.tables.ssls - {fd}),
               open := t.open - {fd}, freed := t.freed + [bev], tasks := s.tasks[k := Finished])
  {
    var b, c, d := Removing(fd, Unregistered, bev), Removing(fd, WorkerForgotten, bev), Removing(fd, SessionForgotten, bev);
    var w := t.tables.(workerMap := t.tables.workerMap - {bev});
    var t1 := t.(tables := w, tasks := s.tasks[k := c]);
    Retasked(s, k, b, c);
    assert Apply(t, ForgetWorker(k), tls) == t1;
    var x := w.(ssls := w.ssls - {fd});
    var t2 := t1.(tables := x, tasks := if tls then s.tasks[k := d] else s.tasks[k := c]);
    Retasked(s, k, c, d);
    assert Apply(t1, ForgetSession(k), tls) == t2;
    Retasked(s, k, if tls then d else c, Finished);
  }

  // ---- No bufferevent is lost ----

  /** A removal that is still at work holds the bufferevent. */
  predicate BeingRemoved(s: State, b: Bev) {
    exists k :: k in s.tasks && s.tasks[k].Removing? && s.tasks[k].remove != Abandoned && s.tasks[k].bev == b
  }

  /** A removal that threw held the bufferevent. */
  ghost predicate AbandonedIn(s: State, b: Bev) {
    exists k :: IsAbandoned(s, k) && s.tasks[k].bev == b
  }

  predicate IsAbandoned(s: State, k: nat) {
    k in s.tasks && s.tasks[k].Removing? && s.tasks[k].remove == Abandoned
  }

  ghost predicate SomeAbandoned(s: State) {
    exists k :: IsAbandoned(s, k)
  }

  /** Every bufferevent ever made is attached, freed, or in the hands of a removal at work. */
  predicate NoneLost(s: State) {
    forall b :: b in s.used ==> b in s.tables.bufferEventDescriptors || b in s.freed || BeingRemoved(s, b)
  }

  /** The same, but for bufferevents whose removal threw. */
  ghost predicate LostOnlyByThrowing(s: State) {
    forall b :: b in s.used ==>
      b in s.tables.bufferEventDescriptors || b in s.freed || BeingRemoved(s, b) || AbandonedIn(s, b)
  }

  lemma LostOnlyByThrowingStep(s: State, a: Action, tls: bool)
    requires LostOnlyByThrowing(s) && !Apply(s, a, tls).duplicateThrown
    ensures LostOnlyByThrowing(Apply(s, a, tls))
  {
    var after := Apply(s, a, tls);
    forall b | b in after.used
      ensures b in after.tables.bufferEventDescriptors || b in after.freed || BeingRemoved(after, b) || AbandonedIn(after, b)
    {
      if BeingRemoved(s, b) || AbandonedIn(s, b) {
        var k :| k in s.tasks && s.tasks[k].Removing? && s.tasks[k].bev == b;
        RemovalGoesOn(s, a, k, tls);
      } else if b in s.tables.bufferEventDescriptors {
        AttachedGoesOn(s, a, b, tls);
      }
    }
  }

  lemma RemovalGoesOn(s: State, a: Action, k: nat, tls: bool)
    requires k in s.tasks && s.tasks[k].Removing?
    ensures var after, b := Apply(s, a, tls), s.tasks[k].bev;
            BeingRemoved(after, b) || AbandonedIn(after, b) || b in after.freed
  {
    var after := Apply(s, a, tls);
    assert k in after.tasks;
    assert IsAbandoned(after, k) || !IsAbandoned(after, k);
  }

  lemma AttachedGoesOn(s: State, a: Action, b: Bev, tls: bool)
    requires b in s.tables.bufferEventDescriptors
    ensures var after := Apply(s, a, tls);
            b in after.tables.bufferEventDescriptors || BeingRemoved(after, b)
  {
    var after := Apply(s, a, tls);
    assert a.DetachEvent? && b !in after.tables.bufferEventDescriptors ==> a.task in after.tasks;
  }

  lemma {:induction false} ExecLostOnlyByThrowing(actions: seq<Action>, tls: bool)
    ensures LostOnlyByThrowing(Exec(actions, tls))
  {
    if actions != [] {
      hide LostOnlyByThrowing, Apply;
      var before := actions[..|actions| - 1];
      ExecLostOnlyByThrowing(before, tls);
      TablesAlwaysSafe(actions, tls);
      LostOnlyByThrowingStep(Exec(before, tls), actions[|actions| - 1], tls);
    } else {
      assert Exec(actions, tls) == START;
    }
  }

  // ---- When a removal throws ----

  /** An accept between its first and its last region: its ID is registered, its client object is not
      there yet. */
  predicate Pending(t: Task) {
    t.Accepting? && t.accept != Handed
  }

  predicate PendingWith(tasks: map<nat, Task>, k: nat, id: Id) {
    k in tasks && Pending(tasks[k]) && tasks[k].id == id
  }

  predicate PendingOn(tasks: map<nat, Task>, k: nat, fd: Fd) {
    k in tasks && Pending(tasks[k]) && tasks[k].fd == fd
  }

  /** The registered IDs without a client object are those of the pending accepts. */
  ghost predicate PendingHold(tasks: map<nat, Task>, descriptors: map<Id, Fd>, allClients: set<Id>) {
    && (forall k :: k in tasks && Pending(tasks[k]) ==>
          && tasks[k].id in descriptors && descriptors[tasks[k].id] == tasks[k].fd
          && tasks[k].id !in allClients)
    && (forall id :: id in descriptors && id !in allClients ==> exists k :: PendingWith(tasks, k, id))
    && (forall id :: id in allClients ==> id in descriptors)
    && (forall j, k :: j in tasks && k in tasks && j != k && Pending(tasks[j]) && Pending(tasks[k]) ==>
          tasks[j].id != tasks[k].id)
  }

  /** A task that starts, ends or moves on without beginning or ending to be pending. */
  lemma PendingMoves(tasks: map<nat, Task>, descriptors: map<Id, Fd>, allClients: set<Id>, k: nat, t: Task)
    requires PendingHold(tasks, descriptors, allClients)
    requires if k in tasks && Pending(tasks[k])
             then Pending(t) && t.id == tasks[k].id && t.fd == tasks[k].fd else !Pending(t)
    ensures PendingHold(tasks[k := t], descriptors, allClients)
  {
    var after := tasks[k := t];
    forall id | id in descriptors && id !in allClients
      ensures exists j :: PendingWith(after, j, id)
    {
      var j :| PendingWith(tasks, j, id);
      assert PendingWith(after, j, id);
    }
  }

  lemma PendingRegistered(tasks: map<nat, Task>, descriptors: map<Id, Fd>, allClients: set<Id>, k: nat, t: Task)
    requires PendingHold(tasks, descriptors, allClients) && k in tasks && !Pending(tasks[k])
    requires Pending(t) && t.id !in descriptors
    ensures PendingHold(tasks[k := t], descriptors[t.id := t.fd], allClients)
  {
    var after := tasks[k := t];
    forall id | (id in descriptors || id == t.id) && id !in allClients
      ensures exists j :: PendingWith(after, j, id)
    {
      if id == t.id {
        assert PendingWith(after, k, id);
      } else {
        var j :| PendingWith(tasks, j, id);
        assert PendingWith(after, j, id);
      }
    }
  }

  lemma PendingEnds(tasks: map<nat, Task>, descriptors: map<Id, Fd>, allClients: set<Id>, k: nat)
    requires PendingHold(tasks, descriptors, allClients) && k in tasks && Pending(tasks[k])
    ensures PendingHold(tasks[k := Finished], descriptors, allClients + {tasks[k].id})
  {
    var after := tasks[k := Finished];
    forall id | id in descriptors && id !in allClients + {tasks[k].id}
      ensures exists j :: PendingWith(after, j, id)
    {
      var j :| PendingWith(tasks, j, id);
      assert PendingWith(after, j, id);
    }
  }

  lemma PendingUnregistered(tasks: map<nat, Task>, descriptors: map<Id, Fd>, allClients: set<Id>, id: Id)
    requires PendingHold(tasks, descriptors, allClients) && id in allClients
    ensures PendingHold(tasks, descriptors - {id}, allClients - {id})
  {
  }

  lemma PendingAccept(s: State, a: Action, tls: bool)
    requires Inv(s) && PendingHold(s.tasks, s.tables.descriptors, s.tables.allClients)
    requires a.task in s.tasks && s.tasks[a.task].Accepting? && !a.Hand? && !a.DetachEvent?
    ensures var t := ApplyAccept(s, a, tls);
            PendingHold(t.tasks, t.tables.descriptors, t.tables.allClients)
  {
    var k, task := a.task, s.tasks[a.task];
    var t := ApplyAccept(s, a, tls);
    hide PendingHold, MutuallyInverse, OwnershipHolds, BufferEventsHold;
    match a
    case RegisterId(_, id) =>
      if t != s {
        assert id !in s.tables.descriptors;
        PendingRegistered(s.tasks, s.tables.descriptors, s.tables.allClients, k, task.(accept := Registered, id := id));
      }
    case AddInstance(_) =>
      if t != s {
        PendingEnds(s.tasks, s.tables.descriptors, s.tables.allClients, k);
      }
    case AttachEvent(_, bev) =>
      if t != s {
        NeverDuplicate(s, k);
        PendingMoves(s.tasks, s.tables.descriptors, s.tables.allClients, k, task.(accept := Attached, bev := bev));
      }
    case Refuse(_) =>
      if t != s {
        PendingMoves(s.tasks, s.tables.descriptors, s.tables.allClients, k, Finished);
      }
    case AddSession(_) =>
      if t != s {
        PendingMoves(s.tasks, s.tables.descriptors, s.tables.allClients, k, task.(accept := SessionKnown));
      }
    case AddWorker(_) =>
      if t != s {
        PendingMoves(s.tasks, s.tables.descriptors, s.tables.allClients, k, task.(accept := WorkerKnown));
      }
    case _ =>
  }

  lemma NeverDuplicate(s: State, k: nat)
    requires Inv(s) && k in s.tasks && s.tasks[k].Accepting? && s.tasks[k].accept == Registered
    ensures s.tasks[k].fd !in s.tables.bufferEvents
  {
    hide MutuallyInverse, IdsPartitioned, BufferEventsHold;
  }

  lemma PendingRemove(s: State, a: Action, tls: bool)
    requires Inv(s) && PendingHold(s.tasks, s.tables.descriptors, s.tables.allClients)
    requires a.task in s.tasks && s.tasks[a.task].Removing? && !a.Hand? && !a.DetachEvent?
    ensures var t := ApplyRemove(s, a, tls);
            PendingHold(t.tasks, t.tables.descriptors, t.tables.allClients)
  {
    var k, task := a.task, s.tasks[a.task];
    var t := ApplyRemove(s, a, tls);
    hide Inv, PendingHold;
    if t != s {
      PendingMoves(s.tasks, s.tables.descriptors, s.tables.allClients, k, t.tasks[k]);
      if a.UnregisterId? && t.tables != s.tables {
        PendingUnregistered(t.tasks, s.tables.descriptors, s.tables.allClients, s.tables.clients[task.fd]);
      }
    }
  }

  lemma PendingStep(s: State, a: Action, tls: bool)
    requires Inv(s) && PendingHold(s.tasks, s.tables.descriptors, s.tables.allClients)
    ensures var t := Apply(s, a, tls);
            PendingHold(t.tasks, t.tables.descriptors, t.tables.allClients)
  {
    hide Inv, PendingHold, ApplyAccept, ApplyRemove;
    match a
    case Hand(k, fd) =>
      if k !in s.tasks {
        PendingMoves(s.tasks, s.tables.descriptors, s.tables.allClients, k, Accepting(fd, Handed, 0, 0));
      }
    case DetachEvent(k, bev) =>
      if k !in s.tasks && bev in s.tables.bufferEventDescriptors {
        var fd := s.tables.bufferEventDescriptors[bev];
        PendingMoves(s.tasks, s.tables.descriptors, s.tables.allClients, k, Removing(fd, Detached, bev));
      }
    case _ =>
      if a.task in s.tasks && s.tasks[a.task].Accepting? {
        PendingAccept(s, a, tls);
      } else if a.task in s.tasks && s.tasks[a.task].Removing? {
        PendingRemove(s, a, tls);
      }
  }

  lemma {:induction false} ExecPending(actions: seq<Action>, tls: bool)
    ensures var s := Exec(actions, tls);
            PendingHold(s.tasks, s.tables.descriptors, s.tables.allClients)
  {
    if actions != [] {
      hide PendingHold, Apply;
      ExecPending(actions[..|actions| - 1], tls);
      ExecInv(actions[..|actions| - 1], tls);
      PendingStep(Exec(actions[..|actions| - 1], tls), actions[|actions| - 1], tls);
    } else {
      assert Exec(actions, tls) == START;
    }
  }

  /** A removal that comes to its second region throws there exactly when the accept of the same
      descriptor has not ended. */
  lemma ThrowsExactly(s: State, k: nat, tls: bool)
    requires Inv(s) && PendingHold(s.tasks, s.tables.descriptors, s.tables.allClients)
    requires k in s.tasks && s.tasks[k].Removing? && s.tasks[k].remove == Detached
    ensures IsAbandoned(Apply(s, UnregisterId(k), tls), k) <==> exists j :: PendingOn(s.tasks, j, s.tasks[k].fd)
  {
    var fd := s.tasks[k].fd;
    assert fd in s.tables.clients && s.tables.descriptors[s.tables.clients[fd]] == fd;
    hide OwnershipHolds, BufferEventsHold, IdsPartitioned, Unregister;
    var id := s.tables.clients[fd];
    assert forall j :: PendingOn(s.tasks, j, fd) ==> s.tasks[j].id == id;
    if id !in s.tables.allClients {
      var j :| PendingWith(s.tasks, j, id);
      assert PendingOn(s.tasks, j, fd);
    }
  }

  // ---- Exactly the runs that lose a bufferevent ----

  /** A removal comes to its second region before the accept of the same descriptor has ended. */
  ghost predicate Overtakes(s: State, a: Action) {
    && a.UnregisterId?
    && a.task in s.tasks && s.tasks[a.task].Removing? && s.tasks[a.task].remove == Detached
    && exists j :: PendingOn(s.tasks, j, s.tasks[a.task].fd)
  }

  ghost predicate NeverOvertaken(actions: seq<Action>, tls: bool) {
    actions == []
    || (&& NeverOvertaken(actions[..|actions| - 1], tls)
        && !Overtakes(Exec(actions[..|actions| - 1], tls), actions[|actions| - 1]))
  }

  /** The thread of an abandoned removal never acts again. */
  lemma AbandonedStays(s: State, a: Action, k: nat, tls: bool)
    requires IsAbandoned(s, k)
    ensures IsAbandoned(Apply(s, a, tls), k) && Apply(s, a, tls).tasks[k] == s.tasks[k]
  {
  }

  lemma AbandonedNew(s: State, a: Action, k: nat, tls: bool)
    requires !IsAbandoned(s, k) && IsAbandoned(Apply(s, a, tls), k)
    ensures a.UnregisterId? && a.task == k && k in s.tasks && s.tasks[k].Removing? && s.tasks[k].remove == Detached
  {
  }

  lemma AbandonedStep(s: State, a: Action, tls: bool)
    requires Inv(s) && PendingHold(s.tasks, s.tables.descriptors, s.tables.allClients)
    ensures SomeAbandoned(Apply(s, a, tls)) <==> SomeAbandoned(s) || Overtakes(s, a)
  {
    hide Inv, PendingHold, Apply, IsAbandoned;
    if k :| IsAbandoned(s, k) {
      AbandonedStays(s, a, k, tls);
    } else if Overtakes(s, a) {
      ThrowsExactly(s, a.task, tls);
      assert IsAbandoned(Apply(s, a, tls), a.task);
    } else if k :| IsAbandoned(Apply(s, a, tls), k) {
      AbandonedNew(s, a, k, tls);
      ThrowsExactly(s, k, tls);
    }
  }

  lemma {:induction false} AbandonedExactly(actions: seq<Action>, tls: bool)
    ensures SomeAbandoned(Exec(actions, tls)) <==> !NeverOvertaken(actions, tls)
  {
    if actions != [] {
      hide Apply, Overtakes, PendingHold, Inv, SomeAbandoned;
      var before := actions[..|actions| - 1];
      AbandonedExactly(before, tls);
      ExecInv(before, tls);
      ExecPending(before, tls);
      AbandonedStep(Exec(before, tls), actions[|actions| - 1], tls);
    } else {
      assert Exec(actions, tls) == START;
      assert forall k :: !IsAbandoned(START, k);
    }
  }

  lemma NoneLostExactly(s: State)
    requires Inv(s) && LostOnlyByThrowing(s)
    ensures NoneLost(s) <==> !SomeAbandoned(s)
  {
    hide OwnershipHolds, Safe;
    if k :| IsAbandoned(s, k) {
      assert !BeingRemoved(s, s.tasks[k].bev);
    }
  }

  /** In a run every bufferevent is attached, freed or in the hands of a removal at work, if and only
      if no removal came to its second region before the accept of the same descriptor had ended. */
  lemma NoBufferEventLost(actions: seq<Action>, tls: bool)
    ensures NoneLost(Exec(actions, tls)) <==> NeverOvertaken(actions, tls)
  {
    hide Exec, NoneLost, Inv, LostOnlyByThrowing, NeverOvertaken, SomeAbandoned;
    ExecInv(actions, tls);
    ExecLostOnlyByThrowing(actions, tls);
    NoneLostExactly(Exec(actions, tls));
    AbandonedExactly(actions, tls);
  }

  /** A lost bufferevent is neither freed nor attached in any continuation. */
  lemma {:induction false} LostForever(actions: seq<Action>, more: seq<Action>, k: nat, tls: bool)
    requires IsAbandoned(Exec(actions, tls), k)
    ensures var s, b := Exec(actions + more, tls), Exec(actions, tls).tasks[k].bev;
            && IsAbandoned(s, k) && s.tasks[k].bev == b
            && b !in s.freed && b !in s.tables.bufferEventDescriptors && !BeingRemoved(s, b)
    decreases |more|
  {
    ExecInv(actions + more, tls);
    if more == [] {
      assert actions + more == actions;
    } else {
      var before, last := more[..|more| - 1], more[|more| - 1];
      LostForever(actions, before, k, tls);
      assert (actions + more)[..|actions + more| - 1] == actions + before && (actions + more)[|actions + more| - 1] == last;
      AbandonedStays(Exec(actions + before, tls), last, k, tls);
    }
    hide Exec, Safe, OwnershipHolds, Apply;
  }

  lemma Then(actions: seq<Action>, s: State, a: Action, t: State, tls: bool) returns (longer: seq<Action>)
    requires Exec(actions, tls) == s && Apply(s, a, tls) == t
    ensures longer == actions + [a] && Exec(longer, tls) == t
  {
    longer := actions + [a];
    assert longer[..|actions|] == actions;
  }

  lemma EmptyRun(tls: bool)
    ensures Exec([], tls) == START
  {
  }

  /** One connection that is attached and known to its worker, so that it can be removed, with its accept
      not yet ended. */
  const HALF_ACCEPTED := State(
    Tables(0, {}, map[5 := 0], map[0 := 5], {}, map[5 := 7], map[7 := 5], {7}, {}),
    {5}, map[0 := Accepting(5, WorkerKnown, 0, 7)], {7}, [], false, false)

  lemma HalfAccepted() returns (actions: seq<Action>)
    ensures Exec(actions, false) == HALF_ACCEPTED
  {
    hide Exec;
    EmptyRun(false);
    var s1 := START.(open := {5}, tasks := map[0 := Accepting(5, Handed, 0, 0)]);
    actions := Then([], START, Hand(0, 5), s1, false);
    var s2 := s1.(tables := EMPTY.(lastClient := 0, descriptors := map[0 := 5], clients := map[5 := 0]),
                  tasks := map[0 := Accepting(5, Registered, 0, 0)]);
    assert EMPTY.freePool - {0} == {};
    actions := Then(actions, s1, RegisterId(0, 0), s2, false);
    var s3 := HALF_ACCEPTED.(tables := HALF_ACCEPTED.tables.(workerMap := {}),
                             tasks := map[0 := Accepting(5, Attached, 0, 7)]);
    actions := Then(actions, s2, AttachEvent(0, 7), s3, false);
    actions := Then(actions, s3, AddWorker(0), HALF_ACCEPTED, false);
  }

  /** A run that loses one: the connection is removed before its accept has entered the client object. */
  lemma BufferEventCanBeLost() returns (actions: seq<Action>)
    ensures !NoneLost(Exec(actions, false)) && IsAbandoned(Exec(actions, false), 1)
  {
    hide Exec, NoneLost, Inv, LostOnlyByThrowing;
    actions := HalfAccepted();
    var s := HALF_ACCEPTED;
    var tables := Tables(0, {}, map[5 := 0], map[0 := 5], {}, map[], map[], {7}, {});
    assert s.tables.bufferEvents - {5} == map[] && s.tables.bufferEventDescriptors - {7} == map[];
    var t := s.(tables := tables, tasks := s.tasks[1 := Removing(5, Detached, 7)]);
    actions := Then(actions, s, DetachEvent(1, 7), t, false);
    var u := t.(tasks := t.tasks[1 := Removing(5, Abandoned, 7)]);
    actions := Then(actions, t, UnregisterId(1), u, false);
    ExecInv(actions, false);
    ExecLostOnlyByThrowing(actions, false);
    NoneLostExactly(u);
    assert IsAbandoned(u, 1);
  }

  // ---- IDs are only ever added at the peak ----

  function FirstIds(n: nat): (ids: set<Id>)
    ensures |ids| == n && forall id: Id :: id in ids <==> id < n
  {
    if n == 0 then {} else FirstIds(n - 1) + {n - 1}
  }

  lemma PartitionCount(live: set<Id>, pooled: set<Id>, n: nat)
    requires live !! pooled
    requires forall id: Id :: id in live || id in pooled <==> id < n
    ensures |live| + |pooled| == n
  {
    assert live + pooled == FirstIds(n);
  }

  lemma LiveCount(t: Tables)
    requires IdsPartitioned(t)
    ensures |t.descriptors| + |t.freePool| == t.lastClient + 1
  {
    PartitionCount(t.descriptors.Keys, t.freePool, t.lastClient + 1);
  }

  lemma OnlyRegisterRaises(s: State, a: Action, tls: bool)
    requires !a.RegisterId?
    ensures Apply(s, a, tls).tables.lastClient == s.tables.lastClient
  {
  }

  /** A step hands out a new ID only when every older one is in use. */
  lemma LastClientStep(s: State, a: Action, tls: bool)
    requires Inv(s) && Inv(Apply(s, a, tls))
    ensures var last := Apply(s, a, tls).tables.lastClient;
            || last == s.tables.lastClient
            || (last == s.tables.lastClient + 1 && |Apply(s, a, tls).tables.descriptors| == last + 1)
  {
    hide MutuallyInverse, IdsPartitioned, OwnershipHolds, BufferEventsHold;
    if a.RegisterId? {
      LiveCount(Apply(s, a, tls).tables);
    } else {
      OnlyRegisterRaises(s, a, tls);
      hide Apply;
    }
  }

  /** Over any run, as many IDs exist as connections were ever registered at one time. */
  lemma {:induction false} IdsEqualPeak(actions: seq<Action>, tls: bool)
    ensures Exec(actions, tls).tables.lastClient + 1 == Peak(actions, tls)
  {
    if actions != [] {
      hide Inv, Apply;
      var before, last := actions[..|actions| - 1], actions[|actions| - 1];
      IdsEqualPeak(before, tls);
      ExecInv(before, tls);
      ExecInv(actions, tls);
      LastClientStep(Exec(before, tls), last, tls);
      LiveCountOf(Exec(actions, tls));
    }
  }

  lemma LiveCountOf(s: State)
    requires Inv(s)
    ensures |s.tables.descriptors| <= s.tables.lastClient + 1
  {
    LiveCount(s.tables);
  }
}
