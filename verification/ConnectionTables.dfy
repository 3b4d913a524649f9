/**
 The connection tables of the server and the lock regions that update them. A descriptor, a
 client ID and a bufferevent are opaque values; the kernel and libevent supply the first and the
 last.
 */
module ConnectionTables {
  import opened Wrappers

  type Fd = nat
  type Id = nat
  /** The last ID handed out for the first time; -1 before any was. */
  type Last = n: int | -1 <= n
  type Bev = nat

  datatype Tables = Tables(
    lastClient: Last,
    freePool: set<Id>,
    clients: map<Fd, Id>,
    descriptors: map<Id, Fd>,
    allClients: set<Id>,
    bufferEvents: map<Fd, Bev>,
    bufferEventDescriptors: map<Bev, Fd>,
    workerMap: set<Bev>,
    ssls: set<Fd>)

  const EMPTY := Tables(-1, {}, map[], map[], {}, map[], map[], {}, {})

  /** std::map::emplace: an existing entry stays. */
  function Emplace<K, V>(m: map<K, V>, k: K, v: V): map<K, V> {
    if k in m then m else m[k := v]
  }

  predicate MutuallyInverse<K, V>(m: map<K, V>, n: map<V, K>) {
    && (forall k :: k in m ==> m[k] in n && n[m[k]] == k)
    && (forall v :: v in n ==> n[v] in m && m[n[v]] == v)
  }

  /** The IDs 0 to lastClient are the live ones and the pooled ones, none of them both. */
  predicate IdsPartitioned(t: Tables) {
    && (forall id :: id in t.descriptors ==> id <= t.lastClient && id !in t.freePool)
    && (forall id :: id in t.freePool ==> id <= t.lastClient)
    && (forall id: Id :: id <= t.lastClient ==> id in t.descriptors || id in t.freePool)
  }

  // ---- Lock regions ----

  /** The IDs that accept may hand out: any pooled one, or the next new one. */
  predicate MayAllocate(t: Tables, id: Id) {
    if t.freePool != {} then id in t.freePool else id == t.lastClient + 1
  }

  /** accept, first region: allocate an ID and register the descriptor under it. */
  function Register(t: Tables, fd: Fd, id: Id): Tables
    requires MayAllocate(t, id)
  {
    t.(freePool := t.freePool - {id},
       lastClient := if t.freePool != {} then t.lastClient else t.lastClient + 1,
       descriptors := Emplace(t.descriptors, id, fd),
       clients := t.clients[fd := id])
  }

  /** accept, second region: None is the exception "already has a bufferevent struct". */
  function Attach(t: Tables, fd: Fd, bev: Bev): Option<Tables> {
    if fd in t.bufferEvents then None
    else Some(t.(bufferEvents := t.bufferEvents[fd := bev],
                 bufferEventDescriptors := Emplace(t.bufferEventDescriptors, bev, fd)))
  }

  /** remove, first region: None when the bufferevent is not (or no longer) in the table. */
  function Detach(t: Tables, bev: Bev): Option<Tables> {
    if bev !in t.bufferEventDescriptors then None
    else Some(t.(bufferEventDescriptors := t.bufferEventDescriptors - {bev},
                 bufferEvents := t.bufferEvents - {t.bufferEventDescriptors[bev]}))
  }

  /** What Server::close finds for a client: its bufferevent, or None, for which it returns false. */
  function FindForClose(t: Tables, id: Id): Option<Bev> {
    if id in t.descriptors && t.descriptors[id] in t.bufferEvents
    then Some(t.bufferEvents[t.descriptors[id]])
    else None
  }

  /** remove, second region, after the close handler has returned. */
  function Unregister(t: Tables, fd: Fd): Tables
    requires fd in t.clients
  {
    var id := t.clients[fd];
    t.(allClients := t.allClients - {id},
       freePool := t.freePool + {id},
       descriptors := t.descriptors - {id},
       clients := t.clients - {fd})
  }

  // ---- What each region keeps ----

  /** What one thread finds between its calls: inverse tables, and a complete record of every
      attached connection. */
  ghost predicate Complete(t: Tables) {
    && MutuallyInverse(t.clients, t.descriptors)
    && MutuallyInverse(t.bufferEvents, t.bufferEventDescriptors)
    && IdsPartitioned(t)
    && (forall fd :: fd in t.bufferEvents ==>
          fd in t.clients && t.clients[fd] in t.allClients && t.bufferEvents[fd] in t.workerMap)
  }

  lemma RegisterTables(t: Tables, fd: Fd, id: Id)
    requires MutuallyInverse(t.clients, t.descriptors) && IdsPartitioned(t)
    requires MayAllocate(t, id) && fd !in t.clients
    ensures id !in t.descriptors
    ensures var u := Register(t, fd, id);
            && u == t.(clients := t.clients[fd := id], descriptors := t.descriptors[id := fd],
                       freePool := u.freePool, lastClient := u.lastClient)
            && MutuallyInverse(u.clients, u.descriptors) && IdsPartitioned(u)
  {
  }

  lemma UnregisterTables(t: Tables, fd: Fd)
    requires MutuallyInverse(t.clients, t.descriptors) && IdsPartitioned(t) && fd in t.clients
    ensures var u := Unregister(t, fd);
            && MutuallyInverse(u.clients, u.descriptors) && IdsPartitioned(u)
            && u == t.(clients := t.clients - {fd}, descriptors := u.descriptors,
                       freePool := u.freePool, allClients := u.allClients)
  {
  }

  lemma AttachTables(t: Tables, fd: Fd, bev: Bev)
    requires MutuallyInverse(t.bufferEvents, t.bufferEventDescriptors)
    requires fd !in t.bufferEvents && bev !in t.bufferEventDescriptors
    ensures var u := Attach(t, fd, bev).value;
            && MutuallyInverse(u.bufferEvents, u.bufferEventDescriptors)
            && u == t.(bufferEvents := t.bufferEvents[fd := bev],
                       bufferEventDescriptors := t.bufferEventDescriptors[bev := fd])
  {
  }

  lemma DetachTables(t: Tables, bev: Bev)
    requires MutuallyInverse(t.bufferEvents, t.bufferEventDescriptors) && bev in t.bufferEventDescriptors
    ensures t.bufferEventDescriptors[bev] in t.bufferEvents
    ensures var u := Detach(t, bev).value;
            && MutuallyInverse(u.bufferEvents, u.bufferEventDescriptors)
            && u == t.(bufferEvents := t.bufferEvents - {t.bufferEventDescriptors[bev]},
                       bufferEventDescriptors := t.bufferEventDescriptors - {bev})
  {
  }

  lemma IdsPartitionedBy(t: Tables, u: Tables)
    requires IdsPartitioned(t)
    requires u.descriptors == t.descriptors && u.freePool == t.freePool && u.lastClient == t.lastClient
    ensures IdsPartitioned(u)
  {
  }

  /** A new connection in every table. */
  function Accepted(t: Tables, fd: Fd, id: Id, bev: Bev, tls: bool): Tables
    requires MayAllocate(t, id)
  {
    var u := Register(t, fd, id);
    u.(bufferEvents := u.bufferEvents[fd := bev],
       bufferEventDescriptors := Emplace(u.bufferEventDescriptors, bev, fd),
       ssls := if tls then u.ssls + {fd} else u.ssls,
       workerMap := u.workerMap + {bev},
       allClients := u.allClients + {id})
  }

  lemma AcceptedComplete(t: Tables, fd: Fd, id: Id, bev: Bev, tls: bool)
    requires Complete(t) && MayAllocate(t, id) && fd !in t.clients && bev !in t.bufferEventDescriptors
    ensures var u := Accepted(t, fd, id, bev, tls);
            && Complete(u) && FindForClose(u, id) == Some(bev) && id !in t.descriptors
            && fd !in t.bufferEvents && u.clients == t.clients[fd := id]
  {
    RegisterTables(t, fd, id);
    var v := Register(t, fd, id);
    AttachTables(v, fd, bev);
    IdsPartitionedBy(v, Accepted(t, fd, id, bev, tls));
    hide IdsPartitioned;
  }

  // ---- The server object ----

  /** The tables after a whole removal. */
  function Removed(t: Tables, bev: Bev): Tables
    requires bev in t.bufferEventDescriptors && t.bufferEventDescriptors[bev] in t.clients
  {
    var fd := t.bufferEventDescriptors[bev];
    var u := Unregister(Detach(t, bev).value, fd);
    u.(workerMap := u.workerMap - {bev}, ssls := u.ssls - {fd})
  }

  lemma DetachKeepsComplete(t: Tables, bev: Bev)
    requires Complete(t) && bev in t.bufferEventDescriptors
    ensures Complete(Detach(t, bev).value)
    ensures t.bufferEventDescriptors[bev] in t.clients
    ensures t.clients[t.bufferEventDescriptors[bev]] in t.allClients
    ensures FindForClose(Detach(t, bev).value, t.clients[t.bufferEventDescriptors[bev]]) == None
  {
  }

  lemma RemovedKeepsComplete(t: Tables, bev: Bev)
    requires Complete(t) && bev in t.bufferEventDescriptors && t.bufferEventDescriptors[bev] in t.clients
    ensures Complete(Removed(t, bev))
  {
  }

  /** Accepting changes every table by the new entry, and the session table on a TLS server only. */
  lemma AcceptedExactly(t: Tables, fd: Fd, id: Id, bev: Bev, tls: bool)
    requires MayAllocate(t, id) && id !in t.descriptors && bev !in t.bufferEventDescriptors
    ensures Accepted(t, fd, id, bev, tls)
         == Tables(if t.freePool != {} then t.lastClient else t.lastClient + 1, t.freePool - {id},
                   t.clients[fd := id], t.descriptors[id := fd], t.allClients + {id},
                   t.bufferEvents[fd := bev], t.bufferEventDescriptors[bev := fd],
                   t.workerMap + {bev}, if tls then t.ssls + {fd} else t.ssls)
  {
  }

  /** Removing takes the entry out of every table and puts the ID into the pool. */
  lemma RemovedExactly(t: Tables, bev: Bev, fd: Fd, id: Id)
    requires bev in t.bufferEventDescriptors && t.bufferEventDescriptors[bev] == fd
    requires fd in t.clients && t.clients[fd] == id
    ensures Removed(t, bev)
         == Tables(t.lastClient, t.freePool + {id}, t.clients - {fd}, t.descriptors - {id}, t.allClients - {id},
                   t.bufferEvents - {fd}, t.bufferEventDescriptors - {bev}, t.workerMap - {bev}, t.ssls - {fd})
  {
  }

  lemma EntryPutAndTaken<K, V>(m: map<K, V>, k: K, v: V)
    requires k !in m
    ensures m[k := v] - {k} == m
  {
  }

  lemma PutAndTaken<T>(s: set<T>, x: T)
    requires x !in s
    ensures s + {x} - {x} == s && s - {x} == s
  {
  }

  lemma TakenAndPut<T>(s: set<T>, x: T)
    requires s != {} ==> x in s
    ensures s - {x} + {x} == if s != {} then s else {x}
  {
  }

  /** What the parts of a new entry are not in before. */
  lemma NewEntry(t: Tables, fd: Fd, id: Id, bev: Bev)
    requires Complete(t) && MayAllocate(t, id) && fd !in t.clients
    ensures id !in t.descriptors && fd !in t.bufferEvents && (t.freePool != {} ==> id in t.freePool)
  {
  }

  /** Accepting a connection and removing it again gives back all the tables, but for the ID: it goes to the
      pool it came from, or is the first one in it. */
  lemma RemoveUndoesAccept(t: Tables, fd: Fd, id: Id, bev: Bev, tls: bool)
    requires Complete(t) && MayAllocate(t, id) && fd !in t.clients && bev !in t.bufferEventDescriptors
    requires id !in t.allClients && bev !in t.workerMap && fd !in t.ssls
    ensures var u := Accepted(t, fd, id, bev, tls);
            && bev in u.bufferEventDescriptors && u.bufferEventDescriptors[bev] == fd && fd in u.clients
            && Removed(u, bev)
               == if t.freePool != {} then t
                  else t.(freePool := {id}, lastClient := t.lastClient + 1)
  {
    hide Complete, MayAllocate, Accepted, Removed;
    NewEntry(t, fd, id, bev);
    AcceptedExactly(t, fd, id, bev, tls);
    RemovedExactly(Accepted(t, fd, id, bev, tls), bev, fd, id);
    EntryPutAndTaken(t.clients, fd, id);
    EntryPutAndTaken(t.descriptors, id, fd);
    EntryPutAndTaken(t.bufferEvents, fd, bev);
    EntryPutAndTaken(t.bufferEventDescriptors, bev, fd);
    PutAndTaken(t.allClients, id);
    PutAndTaken(t.workerMap, bev);
    PutAndTaken(t.ssls, fd);
    TakenAndPut(t.freePool, id);
  }

  class Server {
    var lastClient: Last
    var freePool: set<Id>
    var clients: map<Fd, Id>
    var descriptors: map<Id, Fd>
    var allClients: set<Id>
    var bufferEvents: map<Fd, Bev>
    var bufferEventDescriptors: map<Bev, Fd>
    var workerMap: set<Bev>
    var ssls: set<Fd>
    var closeQueue: set<Bev>
    /** Bufferevents whose output is not yet written. */
    var pendingOutput: set<Bev>
    /** Every call of bufferevent_free, in order. */
    ghost var freed: seq<Bev>

    ghost function Contents(): Tables
      reads this
    {
      Tables(lastClient, freePool, clients, descriptors, allClients, bufferEvents,
             bufferEventDescriptors, workerMap, ssls)
    }

    constructor ()
      ensures Contents() == EMPTY && Complete(Contents()) && freed == []
    {
      lastClient, freePool, clients, descriptors, allClients := -1, {}, map[], map[], {};
      bufferEvents, bufferEventDescriptors, workerMap, ssls := map[], map[], {}, {};
      closeQueue, pendingOutput, freed := {}, {}, [];
    }

    method RegisterClient(newFd: Fd) returns (newClient: Id)
      modifies this
      ensures MayAllocate(old(Contents()), newClient)
      ensures Contents() == Register(old(Contents()), newFd, newClient)
      ensures freed == old(freed)
    {
      if freePool != {} {
        newClient :| newClient in freePool;
        freePool := freePool - {newClient};
      } else {
        lastClient := lastClient + 1;
        newClient := lastClient;
      }
      if newClient !in descriptors {
        descriptors := descriptors[newClient := newFd];
      }
      clients := clients[newFd := newClient];
    }

    method AttachBufferEvent(newFd: Fd, bev: Bev) returns (thrown: bool)
      modifies this
      ensures match Attach(old(Contents()), newFd, bev)
              case None => thrown && Contents() == old(Contents())
              case Some(t) => !thrown && Contents() == t
      ensures freed == old(freed)
    {
      if newFd in bufferEvents {
        return true;
      }
      bufferEvents := bufferEvents[newFd := bev];
      if bev !in bufferEventDescriptors {
        bufferEventDescriptors := bufferEventDescriptors[bev := newFd];
      }
      thrown := false;
    }

    /** A whole accept by one thread: the new connection can be found, the others are as before. */
    method Accept(newFd: Fd, bev: Bev, tls: bool) returns (newClient: Id)
      requires Complete(Contents()) && newFd !in clients && bev !in bufferEventDescriptors
      modifies this
      ensures Complete(Contents())
      ensures MayAllocate(old(Contents()), newClient) && newClient !in old(descriptors)
      ensures Contents() == Accepted(old(Contents()), newFd, newClient, bev, tls)
      ensures clients == old(clients)[newFd := newClient]
      ensures bufferEvents == old(bufferEvents)[newFd := bev]
      ensures FindForClose(Contents(), newClient) == Some(bev)
      ensures freed == old(freed)
    {
      ghost var before := Contents();
      newClient := RegisterClient(newFd);
      AcceptedComplete(before, newFd, newClient, bev, tls);
      hide Complete, FindForClose;
      var thrown := AttachBufferEvent(newFd, bev);
      assert !thrown;
      if tls {
        ssls := ssls + {newFd};
      }
      workerMap := workerMap + {bev};
      allClients := allClients + {newClient};
    }

    /** A whole removal by one thread. It calls the close handler, which calls close on the same
        client; that call finds the bufferevent gone, so the removal does not nest. */
    method Remove(bev: Bev)
      requires Complete(Contents()) && bev in bufferEventDescriptors
      modifies this
      ensures Complete(Contents())
      ensures Contents() == Removed(old(Contents()), bev)
      ensures freed == old(freed) + [bev]
      decreases |bufferEventDescriptors|, 0
    {
      hide Complete, MutuallyInverse, IdsPartitioned;
      ghost var before := Contents();
      DetachKeepsComplete(before, bev);
      RemovedKeepsComplete(before, bev);
      var descriptor := DetachBufferEvent(bev);
      ghost var detached := Contents();
      var nested := CloseHandler(clients[descriptor]);
      assert !nested && Contents() == detached;
      UnregisterClient(descriptor);
      FreeBufferEvent(bev, descriptor);
    }

    /** The rest of remove: the worker map, the TLS session, and bufferevent_free. */
    method FreeBufferEvent(bev: Bev, descriptor: Fd)
      modifies this
      ensures var t := old(Contents());
              Contents() == t.(workerMap := t.workerMap - {bev}, ssls := t.ssls - {descriptor})
      ensures freed == old(freed) + [bev]
    {
      workerMap := workerMap - {bev};
      ssls := ssls - {descriptor};
      freed := freed + [bev];
    }

    method DetachBufferEvent(bev: Bev) returns (descriptor: Fd)
      requires bev in bufferEventDescriptors
      modifies this
      ensures descriptor == old(bufferEventDescriptors[bev])
      ensures Detach(old(Contents()), bev) == Some(Contents())
      ensures freed == old(freed) && |bufferEventDescriptors| < old(|bufferEventDescriptors|)
    {
      descriptor := bufferEventDescriptors[bev];
      assert bufferEventDescriptors.Keys == (bufferEventDescriptors - {bev}).Keys + {bev};
      bufferEventDescriptors := bufferEventDescriptors - {bev};
      bufferEvents := bufferEvents - {descriptor};
    }

    method UnregisterClient(descriptor: Fd)
      requires descriptor in clients
      modifies this
      ensures Contents() == Unregister(old(Contents()), descriptor)
      ensures freed == old(freed)
    {
      var clientId := clients[descriptor];
      allClients := allClients - {clientId};
      freePool := freePool + {clientId};
      descriptors := descriptors - {clientId};
      clients := clients - {descriptor};
    }

    /** The handler that the HTTP server installs: it ends in close on the same client. */
    method CloseHandler(clientId: Id) returns (closed: bool)
      requires Complete(Contents()) && clientId in allClients
      modifies this
      ensures closed <==> FindForClose(old(Contents()), clientId).Some?
      ensures !closed ==> Contents() == old(Contents()) && freed == old(freed)
      ensures closed ==> CloseEffect(old(Contents()), old(freed), clientId)
      decreases |bufferEventDescriptors|, 3
    {
      closed := Close(clientId);
    }

    method Close(clientId: Id) returns (closed: bool)
      requires Complete(Contents())
      modifies this
      ensures Complete(Contents())
      ensures closed <==> FindForClose(old(Contents()), clientId).Some?
      ensures !closed ==> Contents() == old(Contents()) && freed == old(freed)
      ensures closed ==> CloseEffect(old(Contents()), old(freed), clientId)
      decreases |bufferEventDescriptors|, 2
    {
      if clientId !in descriptors || descriptors[clientId] !in bufferEvents {
        return false;
      }
      QueueClose(bufferEvents[descriptors[clientId]]);
      closed := true;
    }

    /** A close that finds its client removes it at once, or leaves it until its output is written. */
    ghost predicate CloseEffect(before: Tables, freedBefore: seq<Bev>, clientId: Id)
      requires FindForClose(before, clientId).Some?
      reads this
    {
      var bev := FindForClose(before, clientId).value;
      || (&& bev in before.bufferEventDescriptors && before.bufferEventDescriptors[bev] in before.clients
          && Contents() == Removed(before, bev) && freed == freedBefore + [bev])
      || (bev in closeQueue && Contents() == before && freed == freedBefore)
    }

    method QueueClose(bev: Bev)
      requires Complete(Contents()) && bev in bufferEventDescriptors
      modifies this
      ensures Complete(Contents())
      ensures if old(bev in pendingOutput)
              then bev in closeQueue && Contents() == old(Contents()) && freed == old(freed)
              else Contents() == Removed(old(Contents()), bev) && freed == old(freed) + [bev]
      decreases |bufferEventDescriptors|, 1
    {
      if bev !in pendingOutput {
        Remove(bev);
      } else {
        closeQueue := closeQueue + {bev};
      }
    }
  }
}
