/**
 The tables of the server when no accept and no removal is under way: over all interleavings they then
 hold exactly the open connections, each in every table.
 */
module ConnectionQuiet {
  import opened ConnectionRuns
  import opened ConnectionTables
  import opened Wrappers

  type Tasks = map<nat, Task>

  // ---- Who answers for an entry that stands in one table and not in another ----

  /** Holds a registered descriptor that is not attached. */
  predicate HoldsId(tasks: Tasks, k: nat, fd: Fd) {
    k in tasks && Owns(tasks[k]) && HasId(tasks[k]) && tasks[k].fd == fd
  }

  /** Will forget a worker entry. */
  predicate WillForget(tasks: Tasks, k: nat, bev: Bev) {
    k in tasks && tasks[k].Removing? && tasks[k].remove in {Detached, Unregistered, Abandoned} && tasks[k].bev == bev
  }

  /** Will enter an attached bufferevent for the worker. */
  predicate WillEnter(tasks: Tasks, k: nat, bev: Bev) {
    k in tasks && tasks[k].Accepting? && tasks[k].accept in {Attached, SessionKnown} && tasks[k].bev == bev
  }

  /** Will enter the session of an attached descriptor. */
  predicate WillOpen(tasks: Tasks, k: nat, fd: Fd) {
    k in tasks && tasks[k].Accepting? && tasks[k].accept == Attached && tasks[k].fd == fd
  }

  /** Will forget a session. */
  predicate WillClose(tasks: Tasks, k: nat, fd: Fd) {
    && k in tasks && tasks[k].Removing? && tasks[k].fd == fd
    && tasks[k].remove in {Detached, Unregistered, WorkerForgotten, Abandoned}
  }

  /** Holds an open descriptor without an ID. */
  predicate HoldsOpen(tasks: Tasks, k: nat, fd: Fd) {
    k in tasks && ((tasks[k].Accepting? && tasks[k].accept == Handed) || tasks[k].Removing?) && tasks[k].fd == fd
  }

  /** Has detached a bufferevent and not yet given back its ID. */
  predicate Caught(tasks: Tasks, k: nat, bev: Bev, fd: Fd) {
    k in tasks && tasks[k].Removing? && tasks[k].remove in {Detached, Abandoned} && tasks[k].bev == bev && tasks[k].fd == fd
  }

  predicate InAccept(t: Task) {
    t.Accepting? && t.accept in {Attached, SessionKnown, WorkerKnown}
  }

  // ---- The invariant, table by table ----

  ghost predicate IdsTracked(tasks: Tasks, clients: map<Fd, Id>, bufferEvents: map<Fd, Bev>) {
    forall fd :: fd in clients ==> fd in bufferEvents || exists k :: HoldsId(tasks, k, fd)
  }

  ghost predicate WorkersTracked(tasks: Tasks, workerMap: set<Bev>, attached: map<Bev, Fd>) {
    && (forall b :: b in workerMap ==> b in attached || exists k :: WillForget(tasks, k, b))
    && (forall b :: b in attached ==> b in workerMap || exists k :: WillEnter(tasks, k, b))
  }

  ghost predicate SessionsTracked(tasks: Tasks, ssls: set<Fd>, bufferEvents: map<Fd, Bev>, tls: bool) {
    && (forall fd :: fd in ssls ==> tls && (fd in bufferEvents || exists k :: WillClose(tasks, k, fd)))
    && (tls ==> forall fd :: fd in bufferEvents ==> fd in ssls || exists k :: WillOpen(tasks, k, fd))
  }

  ghost predicate OpenTracked(tasks: Tasks, open: set<Fd>, clients: map<Fd, Id>) {
    forall fd :: fd in open ==> fd in clients || exists k :: HoldsOpen(tasks, k, fd)
  }

  ghost predicate AcceptsTracked(tasks: Tasks, bufferEvents: map<Fd, Bev>) {
    forall j :: j in tasks && InAccept(tasks[j]) ==>
      || (tasks[j].fd in bufferEvents && bufferEvents[tasks[j].fd] == tasks[j].bev)
      || exists k :: Caught(tasks, k, tasks[j].bev, tasks[j].fd)
  }

  ghost predicate Tracked(s: State, tls: bool) {
    && IdsTracked(s.tasks, s.tables.clients, s.tables.bufferEvents)
    && WorkersTracked(s.tasks, s.tables.workerMap, s.tables.bufferEventDescriptors)
    && SessionsTracked(s.tasks, s.tables.ssls, s.tables.bufferEvents, tls)
    && OpenTracked(s.tasks, s.open, s.tables.clients)
    && AcceptsTracked(s.tasks, s.tables.bufferEvents)
  }

  /** A step of task k leaves what the others answer for as it was. */
  lemma OthersAnswer(tasks: Tasks, k: nat, t: Task)
    ensures var after := tasks[k := t];
            && (forall j, fd :: HoldsId(tasks, j, fd) ==> j == k || HoldsId(after, j, fd))
            && (forall j, b :: WillForget(tasks, j, b) ==> j == k || WillForget(after, j, b))
            && (forall j, b :: WillEnter(tasks, j, b) ==> j == k || WillEnter(after, j, b))
            && (forall j, fd :: WillOpen(tasks, j, fd) ==> j == k || WillOpen(after, j, fd))
            && (forall j, fd :: WillClose(tasks, j, fd) ==> j == k || WillClose(after, j, fd))
            && (forall j, fd :: HoldsOpen(tasks, j, fd) ==> j == k || HoldsOpen(after, j, fd))
            && (forall j, b, fd :: Caught(tasks, j, b, fd) ==> j == k || Caught(after, j, b, fd))
  {
  }

  // ---- A step of a task that answers for nothing less than before ----

  lemma IdsKept(tasks: Tasks, k: nat, t: Task, clients: map<Fd, Id>, bufferEvents: map<Fd, Bev>)
    requires IdsTracked(tasks, clients, bufferEvents)
    requires forall fd :: HoldsId(tasks, k, fd) ==> HoldsId(tasks[k := t], k, fd)
    ensures IdsTracked(tasks[k := t], clients, bufferEvents)
  {
    OthersAnswer(tasks, k, t);
  }

  lemma WorkersKept(tasks: Tasks, k: nat, t: Task, workerMap: set<Bev>, attached: map<Bev, Fd>)
    requires WorkersTracked(tasks, workerMap, attached)
    requires forall b :: WillForget(tasks, k, b) ==> WillForget(tasks[k := t], k, b)
    requires forall b :: WillEnter(tasks, k, b) ==> WillEnter(tasks[k := t], k, b)
    ensures WorkersTracked(tasks[k := t], workerMap, attached)
  {
    OthersAnswer(tasks, k, t);
  }

  lemma SessionsKept(tasks: Tasks, k: nat, t: Task, ssls: set<Fd>, bufferEvents: map<Fd, Bev>, tls: bool)
    requires SessionsTracked(tasks, ssls, bufferEvents, tls)
    requires forall fd :: WillClose(tasks, k, fd) ==> WillClose(tasks[k := t], k, fd)
    requires tls ==> forall fd :: WillOpen(tasks, k, fd) ==> WillOpen(tasks[k := t], k, fd)
    ensures SessionsTracked(tasks[k := t], ssls, bufferEvents, tls)
  {
    OthersAnswer(tasks, k, t);
  }

  lemma AcceptsKept(tasks: Tasks, k: nat, t: Task, bufferEvents: map<Fd, Bev>)
    requires AcceptsTracked(tasks, bufferEvents) && k in tasks
    requires InAccept(t) ==> InAccept(tasks[k]) && t.bev == tasks[k].bev && t.fd == tasks[k].fd
    requires forall b, fd :: Caught(tasks, k, b, fd) ==> Caught(tasks[k := t], k, b, fd)
    ensures AcceptsTracked(tasks[k := t], bufferEvents)
  {
    OthersAnswer(tasks, k, t);
  }

  lemma OpenKept(tasks: Tasks, k: nat, t: Task, open: set<Fd>, clients: map<Fd, Id>)
    requires OpenTracked(tasks, open, clients)
    requires forall fd :: HoldsOpen(tasks, k, fd) ==> HoldsOpen(tasks[k := t], k, fd)
    ensures OpenTracked(tasks[k := t], open, clients)
  {
    OthersAnswer(tasks, k, t);
  }

  // ---- The steps of an accept ----

  lemma HandTracked(s: State, k: nat, fd: Fd, tls: bool)
    requires Tracked(s, tls) && k !in s.tasks
    ensures Tracked(s.(open := s.open + {fd}, tasks := s.tasks[k := Accepting(fd, Handed, 0, 0)]), tls)
  {
    var after := s.tasks[k := Accepting(fd, Handed, 0, 0)];
    OthersAnswer(s.tasks, k, after[k]);
    assert HoldsOpen(after, k, fd);
  }

  lemma RefuseTracked(s: State, k: nat, tls: bool)
    requires Tracked(s, tls) && k in s.tasks && s.tasks[k].Accepting? && s.tasks[k].accept == Handed
    ensures Tracked(s.(open := s.open - {s.tasks[k].fd}, tasks := s.tasks[k := Finished]), tls)
  {
    OthersAnswer(s.tasks, k, Finished);
  }

  lemma RegisterTracked(s: State, k: nat, id: Id, tls: bool)
    requires Tracked(s, tls) && k in s.tasks && s.tasks[k].Accepting? && s.tasks[k].accept == Handed
    requires MayAllocate(s.tables, id)
    ensures var task := s.tasks[k];
            Tracked(s.(tables := Register(s.tables, task.fd, id),
                       tasks := s.tasks[k := task.(accept := Registered, id := id)]), tls)
  {
    var t := s.tasks[k].(accept := Registered, id := id);
    OthersAnswer(s.tasks, k, t);
    assert HoldsId(s.tasks[k := t], k, t.fd);
  }

  lemma AttachIds(tasks: Tasks, k: nat, t: Task, clients: map<Fd, Id>, bufferEvents: map<Fd, Bev>)
    requires IdsTracked(tasks, clients, bufferEvents)
    requires k in tasks && tasks[k].Accepting? && t.Accepting? && tasks[k].fd == t.fd
    ensures IdsTracked(tasks[k := t], clients, bufferEvents[t.fd := t.bev])
  {
    OthersAnswer(tasks, k, t);
  }

  lemma AttachWorkers(tasks: Tasks, k: nat, t: Task, workerMap: set<Bev>, attached: map<Bev, Fd>)
    requires WorkersTracked(tasks, workerMap, attached) && k in tasks && tasks[k].Accepting? && tasks[k].accept == Registered
    requires t.Accepting? && t.accept == Attached
    ensures WorkersTracked(tasks[k := t], workerMap, attached[t.bev := t.fd])
  {
    OthersAnswer(tasks, k, t);
    assert WillEnter(tasks[k := t], k, t.bev);
  }

  lemma AttachSessions(tasks: Tasks, k: nat, t: Task, ssls: set<Fd>, bufferEvents: map<Fd, Bev>, tls: bool)
    requires SessionsTracked(tasks, ssls, bufferEvents, tls)
    requires k in tasks && tasks[k].Accepting? && tasks[k].accept == Registered && t.Accepting? && t.accept == Attached
    ensures SessionsTracked(tasks[k := t], ssls, bufferEvents[t.fd := t.bev], tls)
  {
    OthersAnswer(tasks, k, t);
    assert WillOpen(tasks[k := t], k, t.fd);
  }

  lemma AttachAccepts(tasks: Tasks, k: nat, t: Task, bufferEvents: map<Fd, Bev>)
    requires AcceptsTracked(tasks, bufferEvents) && k in tasks && tasks[k].Accepting? && t.Accepting?
    requires t.fd !in bufferEvents
    ensures AcceptsTracked(tasks[k := t], bufferEvents[t.fd := t.bev])
  {
    OthersAnswer(tasks, k, t);
  }

  lemma AttachTracked(s: State, k: nat, bev: Bev, tls: bool)
    requires Inv(s) && Tracked(s, tls) && k in s.tasks && s.tasks[k].Accepting? && s.tasks[k].accept == Registered
    requires bev !in s.used
    ensures var task := s.tasks[k];
            Attach(s.tables, task.fd, bev).Some?
            && Tracked(s.(tables := Attach(s.tables, task.fd, bev).value, used := s.used + {bev},
                          tasks := s.tasks[k := task.(accept := Attached, bev := bev)]), tls)
  {
    NeverDuplicate(s, k);
    assert bev !in s.tables.bufferEventDescriptors;
    hide Inv, IdsTracked, WorkersTracked, SessionsTracked, AcceptsTracked;
    var t := s.tasks[k].(accept := Attached, bev := bev);
    AttachIds(s.tasks, k, t, s.tables.clients, s.tables.bufferEvents);
    AttachWorkers(s.tasks, k, t, s.tables.workerMap, s.tables.bufferEventDescriptors);
    AttachSessions(s.tasks, k, t, s.tables.ssls, s.tables.bufferEvents, tls);
    AttachAccepts(s.tasks, k, t, s.tables.bufferEvents);
    OpenKept(s.tasks, k, t, s.open, s.tables.clients);
    hide OpenTracked;
  }

  lemma SessionTracked(s: State, k: nat)
    requires Tracked(s, true) && k in s.tasks && s.tasks[k].Accepting? && s.tasks[k].accept == Attached
    ensures var task := s.tasks[k];
            Tracked(s.(tables := s.tables.(ssls := s.tables.ssls + {task.fd}),
                       tasks := s.tasks[k := task.(accept := SessionKnown)]), true)
  {
    var t := s.tasks[k].(accept := SessionKnown);
    OthersAnswer(s.tasks, k, t);
    CaughtCloses(s.tasks[k := t], t.bev, t.fd);
    assert WillEnter(s.tasks[k := t], k, t.bev);
  }

  lemma CaughtCloses(tasks: Tasks, bev: Bev, fd: Fd)
    ensures (exists j :: Caught(tasks, j, bev, fd)) ==>
              (exists j :: WillClose(tasks, j, fd)) && (exists j :: WillForget(tasks, j, bev))
  {
    if j :| Caught(tasks, j, bev, fd) {
      assert WillClose(tasks, j, fd) && WillForget(tasks, j, bev);
    }
  }

  lemma WorkerEntered(tasks: Tasks, k: nat, t: Task, workerMap: set<Bev>, attached: map<Bev, Fd>)
    requires WorkersTracked(tasks, workerMap, attached) && k in tasks && tasks[k].Accepting? && t.Accepting?
    requires tasks[k].bev == t.bev
    requires t.bev in attached || exists j :: Caught(tasks, j, t.bev, t.fd)
    ensures WorkersTracked(tasks[k := t], workerMap + {t.bev}, attached)
  {
    OthersAnswer(tasks, k, t);
    CaughtCloses(tasks[k := t], t.bev, t.fd);
  }

  lemma WorkerTracked(s: State, k: nat, tls: bool)
    requires Inv(s) && Tracked(s, tls) && k in s.tasks && s.tasks[k].Accepting?
    requires s.tasks[k].accept == if tls then SessionKnown else Attached
    ensures var task := s.tasks[k];
            Tracked(s.(tables := s.tables.(workerMap := s.tables.workerMap + {task.bev}),
                       tasks := s.tasks[k := task.(accept := WorkerKnown)]), tls)
  {
    var t := s.tasks[k].(accept := WorkerKnown);
    assert t.fd in s.tables.bufferEvents ==> s.tables.bufferEvents[t.fd] in s.tables.bufferEventDescriptors;
    hide Inv, IdsTracked, WorkersTracked, SessionsTracked, OpenTracked;
    WorkerEntered(s.tasks, k, t, s.tables.workerMap, s.tables.bufferEventDescriptors);
    hide AcceptsTracked;
    IdsKept(s.tasks, k, t, s.tables.clients, s.tables.bufferEvents);
    SessionsKept(s.tasks, k, t, s.tables.ssls, s.tables.bufferEvents, tls);
    OpenKept(s.tasks, k, t, s.open, s.tables.clients);
    AcceptsKept(s.tasks, k, t, s.tables.bufferEvents);
  }

  lemma InstanceTracked(s: State, k: nat, tls: bool)
    requires Tracked(s, tls) && k in s.tasks && s.tasks[k].Accepting? && s.tasks[k].accept == WorkerKnown
    ensures Tracked(s.(tables := s.tables.(allClients := s.tables.allClients + {s.tasks[k].id}),
                       tasks := s.tasks[k := Finished]), tls)
  {
    OthersAnswer(s.tasks, k, Finished);
  }

  // ---- The steps of a removal ----

  lemma DetachIds(tasks: Tasks, k: nat, t: Task, clients: map<Fd, Id>, bufferEvents: map<Fd, Bev>)
    requires IdsTracked(tasks, clients, bufferEvents) && k !in tasks && t.Removing? && t.remove == Detached
    ensures IdsTracked(tasks[k := t], clients, bufferEvents - {t.fd})
  {
    OthersAnswer(tasks, k, t);
    assert HoldsId(tasks[k := t], k, t.fd);
  }

  lemma DetachWorkers(tasks: Tasks, k: nat, t: Task, workerMap: set<Bev>, attached: map<Bev, Fd>)
    requires WorkersTracked(tasks, workerMap, attached) && k !in tasks && t.Removing? && t.remove == Detached
    ensures WorkersTracked(tasks[k := t], workerMap, attached - {t.bev})
  {
    OthersAnswer(tasks, k, t);
    assert WillForget(tasks[k := t], k, t.bev);
  }

  lemma DetachSessions(tasks: Tasks, k: nat, t: Task, ssls: set<Fd>, bufferEvents: map<Fd, Bev>, tls: bool)
    requires SessionsTracked(tasks, ssls, bufferEvents, tls) && k !in tasks && t.Removing? && t.remove == Detached
    ensures SessionsTracked(tasks[k := t], ssls, bufferEvents - {t.fd}, tls)
  {
    OthersAnswer(tasks, k, t);
    assert WillClose(tasks[k := t], k, t.fd);
  }

  lemma DetachAccepts(tasks: Tasks, k: nat, t: Task, bufferEvents: map<Fd, Bev>)
    requires AcceptsTracked(tasks, bufferEvents) && k !in tasks && t.Removing? && t.remove == Detached
    requires t.fd in bufferEvents && bufferEvents[t.fd] == t.bev
    ensures AcceptsTracked(tasks[k := t], bufferEvents - {t.fd})
  {
    OthersAnswer(tasks, k, t);
    assert Caught(tasks[k := t], k, t.bev, t.fd);
  }

  lemma DetachTracked(s: State, k: nat, bev: Bev, tls: bool)
    requires Inv(s) && Tracked(s, tls) && k !in s.tasks && bev in s.tables.bufferEventDescriptors
    ensures var fd := s.tables.bufferEventDescriptors[bev];
            Tracked(s.(tables := Detach(s.tables, bev).value, tasks := s.tasks[k := Removing(fd, Detached, bev)]), tls)
  {
    var fd := s.tables.bufferEventDescriptors[bev];
    assert fd in s.tables.bufferEvents && s.tables.bufferEvents[fd] == bev;
    hide Inv, IdsTracked, WorkersTracked, SessionsTracked, AcceptsTracked;
    var t := Removing(fd, Detached, bev);
    DetachIds(s.tasks, k, t, s.tables.clients, s.tables.bufferEvents);
    DetachWorkers(s.tasks, k, t, s.tables.workerMap, s.tables.bufferEventDescriptors);
    DetachSessions(s.tasks, k, t, s.tables.ssls, s.tables.bufferEvents, tls);
    DetachAccepts(s.tasks, k, t, s.tables.bufferEvents);
    OpenKept(s.tasks, k, t, s.open, s.tables.clients);
    hide OpenTracked;
  }

  lemma AbandonTracked(s: State, k: nat, tls: bool)
    requires Tracked(s, tls) && k in s.tasks && s.tasks[k].Removing? && s.tasks[k].remove == Detached
    ensures Tracked(s.(tasks := s.tasks[k := s.tasks[k].(remove := Abandoned)]), tls)
  {
    var t := s.tasks[k].(remove := Abandoned);
    var after := s.tasks[k := t];
    OthersAnswer(s.tasks, k, t);
    assert HoldsId(after, k, t.fd) && WillForget(after, k, t.bev) && WillClose(after, k, t.fd);
    assert HoldsOpen(after, k, t.fd) && Caught(after, k, t.bev, t.fd);
  }

  lemma UnregisterTracked(s: State, k: nat, nested: bool, tls: bool)
    requires Tracked(s, tls) && k in s.tasks && s.tasks[k].Removing? && s.tasks[k].remove == Detached
    requires s.tasks[k].fd in s.tables.clients
    requires forall j :: !PendingOn(s.tasks, j, s.tasks[k].fd)
    ensures Tracked(s.(nestedClosed := nested, tables := Unregister(s.tables, s.tasks[k].fd),
                       tasks := s.tasks[k := s.tasks[k].(remove := Unregistered)]), tls)
  {
    var t := s.tasks[k].(remove := Unregistered);
    var after := s.tasks[k := t];
    OthersAnswer(s.tasks, k, t);
    assert WillForget(after, k, t.bev) && WillClose(after, k, t.fd) && HoldsOpen(after, k, t.fd);
    assert forall j :: j in s.tasks && InAccept(s.tasks[j]) && s.tasks[j].fd == t.fd ==> PendingOn(s.tasks, j, t.fd);
  }

  lemma WorkerLost(tasks: Tasks, k: nat, t: Task, workerMap: set<Bev>, attached: map<Bev, Fd>)
    requires WorkersTracked(tasks, workerMap, attached) && k in tasks && tasks[k].Removing? && t.Removing?
    requires tasks[k].bev == t.bev && t.bev !in attached
    ensures WorkersTracked(tasks[k := t], workerMap - {t.bev}, attached)
  {
    OthersAnswer(tasks, k, t);
  }

  lemma ForgetWorkerTracked(s: State, k: nat, tls: bool)
    requires Inv(s) && Tracked(s, tls) && k in s.tasks && s.tasks[k].Removing? && s.tasks[k].remove == Unregistered
    ensures Tracked(s.(tables := s.tables.(workerMap := s.tables.workerMap - {s.tasks[k].bev}),
                       tasks := s.tasks[k := s.tasks[k].(remove := WorkerForgotten)]), tls)
  {
    var t := s.tasks[k].(remove := WorkerForgotten);
    assert t.bev !in s.tables.bufferEventDescriptors;
    hide Inv, IdsTracked, WorkersTracked, SessionsTracked, OpenTracked, AcceptsTracked;
    WorkerLost(s.tasks, k, t, s.tables.workerMap, s.tables.bufferEventDescriptors);
    IdsKept(s.tasks, k, t, s.tables.clients, s.tables.bufferEvents);
    SessionsKept(s.tasks, k, t, s.tables.ssls, s.tables.bufferEvents, tls);
    OpenKept(s.tasks, k, t, s.open, s.tables.clients);
    AcceptsKept(s.tasks, k, t, s.tables.bufferEvents);
  }

  lemma SessionLost(tasks: Tasks, k: nat, t: Task, ssls: set<Fd>, bufferEvents: map<Fd, Bev>)
    requires SessionsTracked(tasks, ssls, bufferEvents, true) && k in tasks && tasks[k].Removing? && t.Removing?
    requires tasks[k].fd == t.fd && t.fd !in bufferEvents
    ensures SessionsTracked(tasks[k := t], ssls - {t.fd}, bufferEvents, true)
  {
    OthersAnswer(tasks, k, t);
  }

  lemma ForgetSessionTracked(s: State, k: nat)
    requires Inv(s) && Tracked(s, true) && k in s.tasks && s.tasks[k].Removing? && s.tasks[k].remove == WorkerForgotten
    ensures Tracked(s.(tables := s.tables.(ssls := s.tables.ssls - {s.tasks[k].fd}),
                       tasks := s.tasks[k := s.tasks[k].(remove := SessionForgotten)]), true)
  {
    var t := s.tasks[k].(remove := SessionForgotten);
    assert t.fd !in s.tables.bufferEvents;
    hide Inv, IdsTracked, WorkersTracked, SessionsTracked, OpenTracked, AcceptsTracked;
    SessionLost(s.tasks, k, t, s.tables.ssls, s.tables.bufferEvents);
    IdsKept(s.tasks, k, t, s.tables.clients, s.tables.bufferEvents);
    WorkersKept(s.tasks, k, t, s.tables.workerMap, s.tables.bufferEventDescriptors);
    OpenKept(s.tasks, k, t, s.open, s.tables.clients);
    AcceptsKept(s.tasks, k, t, s.tables.bufferEvents);
  }

  lemma FreeTracked(s: State, k: nat, tls: bool)
    requires Tracked(s, tls) && k in s.tasks && s.tasks[k].Removing?
    requires s.tasks[k].remove == if tls then SessionForgotten else WorkerForgotten
    ensures Tracked(s.(open := s.open - {s.tasks[k].fd}, freed := s.freed + [s.tasks[k].bev],
                       tasks := s.tasks[k := Finished]), tls)
  {
    OthersAnswer(s.tasks, k, Finished);
  }

  // ---- Runs ----

  lemma AcceptTracked(s: State, a: Action, tls: bool)
    requires Inv(s) && Tracked(s, tls)
    requires a.task in s.tasks && s.tasks[a.task].Accepting? && !a.Hand? && !a.DetachEvent?
    ensures Tracked(ApplyAccept(s, a, tls), tls)
  {
    hide Inv, Tracked, Register, Attach;
    var k, task := a.task, s.tasks[a.task];
    match a
    case Refuse(_) =>
      if tls && task.accept == Handed {
        RefuseTracked(s, k, tls);
      }
    case RegisterId(_, id) =>
      if task.accept == Handed && MayAllocate(s.tables, id) {
        RegisterTracked(s, k, id, tls);
      }
    case AttachEvent(_, bev) =>
      if task.accept == Registered && bev !in s.used {
        AttachTracked(s, k, bev, tls);
      }
    case AddSession(_) =>
      if tls && task.accept == Attached {
        SessionTracked(s, k);
      }
    case AddWorker(_) =>
      if task.accept == if tls then SessionKnown else Attached {
        WorkerTracked(s, k, tls);
      }
    case AddInstance(_) =>
      if task.accept == WorkerKnown {
        InstanceTracked(s, k, tls);
      }
    case _ =>
  }

  lemma SecondRegionTracked(s: State, k: nat, tls: bool)
    requires Inv(s) && Tracked(s, tls) && PendingHold(s.tasks, s.tables.descriptors, s.tables.allClients)
    requires k in s.tasks && s.tasks[k].Removing? && s.tasks[k].remove == Detached
    ensures Tracked(ApplyRemove(s, UnregisterId(k), tls), tls)
  {
    ThrowsExactly(s, k, tls);
    hide Inv, Tracked, PendingHold, Unregister, FindForClose;
    var task := s.tasks[k];
    if task.fd in s.tables.clients && s.tables.clients[task.fd] in s.tables.allClients {
      var nested := FindForClose(s.tables, s.tables.clients[task.fd]).Some?;
      UnregisterTracked(s, k, s.nestedClosed || nested, tls);
    } else {
      AbandonTracked(s, k, tls);
    }
  }

  lemma RemoveTracked(s: State, a: Action, tls: bool)
    requires Inv(s) && Tracked(s, tls) && PendingHold(s.tasks, s.tables.descriptors, s.tables.allClients)
    requires a.task in s.tasks && s.tasks[a.task].Removing? && !a.Hand? && !a.DetachEvent?
    ensures Tracked(ApplyRemove(s, a, tls), tls)
  {
    hide Inv, Tracked, PendingHold, Unregister, FindForClose;
    var k, task := a.task, s.tasks[a.task];
    match a
    case UnregisterId(_) =>
      if task.remove == Detached {
        SecondRegionTracked(s, k, tls);
      }
    case ForgetWorker(_) =>
      if task.remove == Unregistered {
        ForgetWorkerTracked(s, k, tls);
      }
    case ForgetSession(_) =>
      if tls && task.remove == WorkerForgotten {
        ForgetSessionTracked(s, k);
      }
    case Free(_) =>
      if task.remove == if tls then SessionForgotten else WorkerForgotten {
        FreeTracked(s, k, tls);
      }
    case _ =>
  }

  lemma StepTracked(s: State, a: Action, tls: bool)
    requires Inv(s) && Tracked(s, tls) && PendingHold(s.tasks, s.tables.descriptors, s.tables.allClients)
    ensures Tracked(Apply(s, a, tls), tls)
  {
    hide Inv, Tracked, PendingHold, ApplyAccept, ApplyRemove, Detach;
    match a
    case Hand(k, fd) =>
      if k !in s.tasks && fd !in s.open {
        HandTracked(s, k, fd, tls);
      }
    case DetachEvent(k, bev) =>
      if k !in s.tasks && bev in s.tables.bufferEventDescriptors {
        DetachTracked(s, k, bev, tls);
        DetachedThere(s, bev);
      } else {
        NotThere(s, bev);
      }
    case _ =>
      if a.task in s.tasks && s.tasks[a.task].Accepting? {
        AcceptTracked(s, a, tls);
      } else if a.task in s.tasks && s.tasks[a.task].Removing? {
        RemoveTracked(s, a, tls);
      }
  }

  lemma DetachedThere(s: State, bev: Bev)
    requires bev in s.tables.bufferEventDescriptors
    ensures Detach(s.tables, bev).Some?
  {
  }

  lemma NotThere(s: State, bev: Bev)
    ensures bev !in s.tables.bufferEventDescriptors ==> Detach(s.tables, bev) == None
  {
  }

  lemma {:induction false} ExecTracked(actions: seq<Action>, tls: bool)
    ensures Tracked(Exec(actions, tls), tls)
  {
    if actions != [] {
      hide Tracked, Apply, Inv, PendingHold;
      var before := actions[..|actions| - 1];
      ExecTracked(before, tls);
      ExecInv(before, tls);
      ExecPending(before, tls);
      StepTracked(Exec(before, tls), actions[|actions| - 1], tls);
    } else {
      assert Exec(actions, tls) == START;
    }
  }

  /** No accept and no removal is under way, and none has thrown. */
  predicate Quiet(s: State) {
    forall k :: k in s.tasks ==> s.tasks[k] == Finished
  }

  /** Over all interleavings, when nothing is under way: every open descriptor is a connection that stands in
      every table, with a session exactly on a TLS server, and no table holds anything else. */
  lemma QuietTables(actions: seq<Action>, tls: bool)
    requires Quiet(Exec(actions, tls))
    ensures var s := Exec(actions, tls);
            var t := s.tables;
            && t.clients.Keys == t.bufferEvents.Keys == s.open
            && t.ssls == (if tls then s.open else {})
            && t.workerMap == t.bufferEventDescriptors.Keys
            && t.allClients == t.descriptors.Keys
            && Complete(t)
  {
    hide Exec;
    ExecInv(actions, tls);
    ExecPending(actions, tls);
    ExecTracked(actions, tls);
    QuietState(Exec(actions, tls), tls);
  }

  lemma QuietState(s: State, tls: bool)
    requires Inv(s) && Tracked(s, tls) && Quiet(s) && PendingHold(s.tasks, s.tables.descriptors, s.tables.allClients)
    ensures var t := s.tables;
            && t.clients.Keys == t.bufferEvents.Keys == s.open
            && t.ssls == (if tls then s.open else {})
            && t.workerMap == t.bufferEventDescriptors.Keys
            && t.allClients == t.descriptors.Keys
            && Complete(t)
  {
    hide OwnershipHolds, BufferEventsHold, IdsPartitioned;
    var t := s.tables;
    assert forall fd :: fd in t.clients <==> fd in t.bufferEvents;
    assert forall fd :: fd in s.open <==> fd in t.clients;
    assert forall fd :: fd in t.ssls <==> tls && fd in t.bufferEvents;
    assert forall b :: b in t.workerMap <==> b in t.bufferEventDescriptors;
    assert forall id :: id in t.allClients <==> id in t.descriptors;
  }
}
