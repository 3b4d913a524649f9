/** What every run of create, join, leave, close and win keeps true of the register. */
module ChessRegistryRuns {
  import opened ChessBoard
  import opened ChessRegistry
  import opened ChessSeats
  import opened Wrappers

  datatype Action =
    | Connecting(client: int)
    | Create(client: int, id: string, columnCount: int, color: Color, request: Request, canMove: bool)
    | Join(client: int, id: string, spectates: bool, canMove: bool)
    | Leave(client: int)
    | Close(client: int)
    | Win(client: int)

  /** Messages come from connected clients only. */
  function Apply(s: State, a: Action): State {
    match a
    case Connecting(client) => s.(connections := s.connections + {client})
    case Close(client) => Closing(s, client)
    case _ =>
      if a.client !in s.connections then s
      else
        match a
        case Create(client, id, columnCount, color, request, canMove) =>
          Creating(s, client, id, columnCount, color, request, canMove)
        case Join(client, id, spectates, canMove) => Joining(s, client, id, spectates, canMove)
        case Leave(client) => Leaving(s, client)
        case _ => Winning(s, a.client)
  }

  function Exec(s: State, actions: seq<Action>): State
    decreases |actions|
  {
    if actions == [] then s else Exec(Apply(s, actions[0]), actions[1..])
  }

  // ---- The invariant ----

  /** h is a match that is not over and client takes part in it. */
  predicate InMatch(store: map<nat, Entry>, h: nat, client: int) {
    h in store && !store[h].over && client in People(store[h])
  }

  ghost predicate ClientsExact(store: map<nat, Entry>, byClient: map<int, nat>) {
    && (forall c :: c in byClient ==> InMatch(store, byClient[c], c))
    && (forall h, c :: InMatch(store, h, c) ==> c in byClient && byClient[c] == h)
  }

  predicate Running(store: map<nat, Entry>, h: nat) {
    h in store && !store[h].over
  }

  ghost predicate IdsExact(store: map<nat, Entry>, byId: map<string, nat>) {
    && (forall id :: id in byId ==> Running(store, byId[id]) && store[byId[id]].id == id)
    && (forall h :: Running(store, h) ==> store[h].id in byId && byId[store[h].id] == h)
  }

  /** Nobody has two roles. */
  predicate OneRole(e: Entry) {
    && NoDuplicates(e.spectators)
    && HumanClients(e.seats.host) !! HumanClients(e.seats.guest)
    && (HumanClients(e.seats.host) + HumanClients(e.seats.guest)) !! Elements(e.spectators)
  }

  ghost predicate MatchesRight(store: map<nat, Entry>) {
    forall h :: Running(store, h) ==> WellSeated(store[h].seats) && IsActive(store[h].seats) && OneRole(store[h])
  }

  ghost predicate Inv(s: State) {
    && ClientsExact(s.store, s.byClient)
    && IdsExact(s.store, s.byId)
    && MatchesRight(s.store)
    && (forall h :: h in s.store ==> h < s.next)
    && (forall c :: c in s.byClient ==> c in s.connections)
  }

  // ---- Ending and leaving ----

  lemma EndedKeeps(s: State, h: nat)
    requires Inv(s) && Running(s.store, h)
    ensures Inv(Ended(s, h))
  {
    hide People, WellSeated, IsActive, OneRole;
    var t := Ended(s, h);
    assert forall k :: Running(t.store, k) <==> Running(s.store, k) && k != h;
    assert forall k, c :: InMatch(t.store, k, c) <==> InMatch(s.store, k, c) && k != h;
    assert forall c :: c in People(s.store[h]) ==> InMatch(s.store, h, c);
  }

  lemma {:induction false} WithoutIs(s: seq<int>, client: int)
    ensures Elements(Without(s, client)) == Elements(s) - {client}
    ensures NoDuplicates(s) ==> NoDuplicates(Without(s, client))
  {
    if s != [] {
      var rest, last := s[..|s| - 1], s[|s| - 1];
      WithoutIs(rest, client);
      assert s == rest + [last];
      ElementsSnoc(rest, last);
      ElementsSnoc(Without(rest, client), last);
      hide Elements, NoDuplicates;
      assert Without(s, client) == Without(rest, client) + if last == client then [] else [last];
    }
  }

  lemma ElementsSnoc(s: seq<int>, last: int)
    ensures Elements(s + [last]) == Elements(s) + {last}
    ensures NoDuplicates(s + [last]) <==> NoDuplicates(s) && last !in Elements(s)
  {
    var t := s + [last];
    assert forall i :: 0 <= i < |s| ==> t[i] == s[i] && s[i] in Elements(s);
    assert t[|s|] == last;
  }

  lemma EntryWithoutIs(e: Entry, client: int)
    requires WellSeated(e.seats) && OneRole(e)
    ensures var f := EntryWithout(e, client);
            WellSeated(f.seats) && OneRole(f) && People(f) == People(e) - {client} && f.id == e.id && f.over == e.over
  {
    WithoutIs(e.spectators, client);
    hide Elements, Without, NoDuplicates;
  }

  /** After a client has left his seat his entry is the only one that is wrong. */
  ghost predicate AlmostInv(s: State, client: int) {
    && (forall c :: c in s.byClient && c != client ==> InMatch(s.store, s.byClient[c], c))
    && (forall h, c :: InMatch(s.store, h, c) ==> c != client && c in s.byClient && s.byClient[c] == h)
    && IdsExact(s.store, s.byId)
    && (forall h :: h in s.store ==> h < s.next)
    && (forall c :: c in s.byClient && c != client ==> c in s.connections)
  }

  ghost predicate OthersRight(store: map<nat, Entry>, h: nat) {
    && (forall k :: Running(store, k) && k != h ==>
          WellSeated(store[k].seats) && IsActive(store[k].seats) && OneRole(store[k]))
    && Running(store, h) && WellSeated(store[h].seats) && OneRole(store[h])
  }

  lemma ClientLeft(store: map<nat, Entry>, h: nat, e: Entry, client: int, byClient: map<int, nat>)
    requires ClientsExact(store, byClient) && InMatch(store, h, client)
    requires People(e) == People(store[h]) - {client} && e.over == store[h].over
    ensures var after := store[h := e];
            forall k, c :: InMatch(after, k, c) <==> InMatch(store, k, c) && c != client
  {
    hide People;
    var after := store[h := e];
    forall k, c
      ensures InMatch(after, k, c) <==> InMatch(store, k, c) && c != client
    {
      assert k == h ==> after[k] == e;
      assert InMatch(store, k, client) ==> k == h;
    }
  }

  lemma EntryReplaced(store: map<nat, Entry>, h: nat, e: Entry, byId: map<string, nat>)
    requires IdsExact(store, byId) && h in store && e.over == store[h].over && e.id == store[h].id
    ensures IdsExact(store[h := e], byId)
    ensures var after := store[h := e];
            forall k :: Running(after, k) <==> Running(store, k)
  {
  }

  lemma SeatLeft(s: State, client: int)
    requires Inv(s) && client in s.byClient
    ensures var h := s.byClient[client];
            var t := s.(store := s.store[h := EntryWithout(s.store[h], client)]);
            AlmostInv(t, client) && OthersRight(t.store, h)
  {
    var h := s.byClient[client];
    var e := EntryWithout(s.store[h], client);
    assert InMatch(s.store, h, client) && Running(s.store, h);
    EntryWithoutIs(s.store[h], client);
    hide People, WellSeated, IsActive, OneRole, EntryWithout;
    ClientLeft(s.store, h, e, client, s.byClient);
    EntryReplaced(s.store, h, e, s.byId);
    hide IdsExact;
    assert OthersRight(s.store[h := e], h);
    hide InMatch, Running;
    var store := s.store[h := e];
    forall k, c | InMatch(store, k, c)
      ensures c != client && c in s.byClient && s.byClient[c] == k
    {
      assert InMatch(s.store, k, c);
    }
    assert forall c :: c in s.byClient && c != client ==> InMatch(store, s.byClient[c], c);
  }

  lemma EndedAlmost(s: State, client: int, h: nat)
    requires AlmostInv(s, client) && OthersRight(s.store, h)
    ensures AlmostInv(Ended(s, h), client) && MatchesRight(Ended(s, h).store)
  {
    hide People, WellSeated, IsActive, OneRole;
    var t := Ended(s, h);
    assert forall k :: Running(t.store, k) <==> Running(s.store, k) && k != h;
    assert forall k, c :: InMatch(t.store, k, c) <==> InMatch(s.store, k, c) && k != h;
    assert forall c :: c in People(s.store[h]) ==> InMatch(s.store, h, c);
  }

  lemma ErasedKeeps(s: State, client: int)
    requires AlmostInv(s, client) && MatchesRight(s.store)
    ensures Inv(s.(byClient := s.byClient - {client}))
  {
    hide InMatch, Running, IdsExact, MatchesRight;
  }

  lemma LeavingKeeps(s: State, client: int)
    requires Inv(s)
    ensures Inv(Leaving(s, client))
    ensures client !in Leaving(s, client).byClient
  {
    if client in s.byClient {
      var h := s.byClient[client];
      assert InMatch(s.store, h, client);
      SeatLeft(s, client);
      var t := s.(store := s.store[h := EntryWithout(s.store[h], client)]);
      hide Inv, AlmostInv, Ended, EntryWithout, WellSeated, OneRole;
      if IsActive(t.store[h].seats) {
        assert MatchesRight(t.store);
        ErasedKeeps(t, client);
      } else {
        hide OthersRight;
        EndedAlmost(t, client, h);
        ErasedKeeps(Ended(t, h), client);
      }
    }
  }

  lemma ClosingKeeps(s: State, client: int)
    requires Inv(s)
    ensures Inv(Closing(s, client))
  {
    LeavingKeeps(s, client);
    ConnectionsApart(s, client, s.connections - {client});
    hide Inv, Leaving;
    assert Closing(s, client) == Leaving(s, client).(connections := s.connections - {client});
    Disconnecting(Leaving(s, client), client);
  }

  lemma ConnectionsApart(s: State, client: int, connections: set<int>)
    ensures Leaving(s.(connections := connections), client) == Leaving(s, client).(connections := connections)
    ensures Leaving(s, client).connections == s.connections
  {
    hide People, EntryWithout, IsActive;
  }

  lemma Disconnecting(s: State, client: int)
    requires Inv(s) && client !in s.byClient
    ensures Inv(s.(connections := s.connections - {client}))
  {
    hide ClientsExact, IdsExact, MatchesRight;
  }

  // ---- Creating and joining ----

  lemma NewClient(store: map<nat, Entry>, byClient: map<int, nat>, h: nat, e: Entry, client: int)
    requires ClientsExact(store, byClient) && h !in store && client !in byClient
    requires People(e) == {client} && !e.over
    ensures ClientsExact(store[h := e], byClient[client := h])
  {
    hide People;
    var after := store[h := e];
    forall k, c
      ensures InMatch(after, k, c) <==> InMatch(store, k, c) || (k == h && c == client)
    {
      assert k == h ==> after[k] == e;
    }
    hide InMatch;
  }

  lemma NewId(store: map<nat, Entry>, byId: map<string, nat>, h: nat, e: Entry)
    requires IdsExact(store, byId) && h !in store && e.id !in byId && !e.over
    ensures IdsExact(store[h := e], byId[e.id := h])
  {
  }

  lemma NewMatch(store: map<nat, Entry>, h: nat, e: Entry)
    requires MatchesRight(store) && h !in store
    requires WellSeated(e.seats) && IsActive(e.seats) && OneRole(e)
    ensures MatchesRight(store[h := e])
  {
    hide WellSeated, IsActive, OneRole;
    assert forall k :: Running(store[h := e], k) && k != h ==> Running(store, k);
  }

  lemma NewMatchKeeps(s: State, client: int, id: string, color: Color, request: Request)
    requires Inv(s) && client !in s.byClient && client in s.connections && id !in s.byId
    ensures var t := s.(store := s.store[s.next := NewEntry(client, id, color, request)], next := s.next + 1,
                        byId := s.byId[id := s.next], byClient := s.byClient[client := s.next]);
            Inv(t) && Running(t.store, s.next)
  {
    var e, h := NewEntry(client, id, color, request), s.next;
    assert WellSeated(e.seats) && IsActive(e.seats) && OneRole(e) && e.id == id && !e.over;
    assert People(e) == {client};
    hide ClientsExact, IdsExact, MatchesRight, People, NewEntry, WellSeated, IsActive, OneRole;
    NewClient(s.store, s.byClient, h, e, client);
    NewId(s.store, s.byId, h, e);
    NewMatch(s.store, h, e);
  }

  lemma CreatingKeeps(s: State, client: int, id: string, columnCount: int, color: Color, request: Request, canMove: bool)
    requires Inv(s) && client in s.connections
    ensures Inv(Creating(s, client, id, columnCount, color, request, canMove))
  {
    if CreateProblem(s, client, id, columnCount, request) == None {
      NewMatchKeeps(s, client, id, color, request);
      var t := s.(store := s.store[s.next := NewEntry(client, id, color, request)], next := s.next + 1,
                  byId := s.byId[id := s.next], byClient := s.byClient[client := s.next]);
      hide Inv, Ended, Running;
      EndedKeeps(t, s.next);
    }
  }

  lemma SeatedIs(e: Entry, client: int, spectates: bool)
    requires WellSeated(e.seats) && OneRole(e) && IsActive(e.seats) && client !in People(e)
    requires spectates || e.seats.host == None || e.seats.guest == None
    ensures var f := Seated(e, client, spectates);
            && WellSeated(f.seats) && OneRole(f) && IsActive(f.seats)
            && People(f) == People(e) + {client} && f.id == e.id && f.over == e.over
  {
    if spectates {
      assert Elements(e.spectators + [client]) == Elements(e.spectators) + {client};
      assert forall i :: 0 <= i < |e.spectators| ==> e.spectators[i] in Elements(e.spectators);
    }
  }

  lemma SeatTaken(s: State, h: nat, client: int, f: Entry)
    requires Inv(s) && client !in s.byClient && client in s.connections && Running(s.store, h)
    requires WellSeated(f.seats) && OneRole(f) && IsActive(f.seats)
    requires People(f) == People(s.store[h]) + {client} && f.id == s.store[h].id && !f.over
    ensures Inv(s.(store := s.store[h := f], byClient := s.byClient[client := h]))
  {
    hide People, WellSeated, IsActive, OneRole;
    var t := s.(store := s.store[h := f], byClient := s.byClient[client := h]);
    assert forall k :: Running(t.store, k) <==> Running(s.store, k);
    assert forall k, c :: InMatch(t.store, k, c) <==> InMatch(s.store, k, c) || (k == h && c == client);
  }

  lemma JoiningKeeps(s: State, client: int, id: string, spectates: bool, canMove: bool)
    requires Inv(s) && client in s.connections
    ensures Inv(Joining(s, client, id, spectates, canMove))
  {
    if JoinProblem(s, client, id, spectates) == None {
      var h := s.byId[id];
      assert Running(s.store, h);
      assert client in People(s.store[h]) ==> InMatch(s.store, h, client);
      SeatedIs(s.store[h], client, spectates);
      var e := Seated(s.store[h], client, spectates);
      var f := if !spectates && !e.started then e.(started := true) else e;
      var t := s.(store := s.store[h := f], byClient := s.byClient[client := h]);
      SeatTaken(s, h, client, f);
      hide Inv, Ended, Seated, People;
      EndedKeeps(t, h);
    }
  }

  lemma WinningKeeps(s: State, client: int)
    requires Inv(s)
    ensures Inv(Winning(s, client))
  {
    if client in s.byClient {
      assert InMatch(s.store, s.byClient[client], client);
      EndedKeeps(s, s.byClient[client]);
    }
  }

  // ---- What an operation changes, and what it leaves alone ----

  /** Somebody else sits in a seat that keeps the match going: the host's, or between two people either. */
  predicate KeptByOther(e: Entry, client: int) {
    || (e.seats.host.Some? && e.seats.host != Some(Human(client)))
    || (e.seats.kind == TwoHumans && e.seats.guest.Some? && e.seats.guest != Some(Human(client)))
  }

  /** The same match without one of its people. */
  ghost predicate OnlyLacks(f: Entry, e: Entry, client: int) {
    && f.id == e.id && f.started == e.started && f.over == e.over
    && f.seats.kind == e.seats.kind && f.seats.hostColor == e.seats.hostColor
    && f.seats.host == (if e.seats.host == Some(Human(client)) then None else e.seats.host)
    && f.seats.guest == (if e.seats.guest == Some(Human(client)) then None else e.seats.guest)
    && Elements(f.spectators) == Elements(e.spectators) - {client}
  }

  lemma EntryOnlyLacks(e: Entry, client: int)
    requires WellSeated(e.seats)
    ensures OnlyLacks(EntryWithout(e, client), e, client)
    ensures IsActive(EntryWithout(e, client).seats) <==> KeptByOther(e, client)
  {
    WithoutIs(e.spectators, client);
    hide Elements, Without;
  }

  /** A client who leaves ends his match exactly when nobody else sits in a seat that keeps it going. If it
      goes on, only he is gone; if not, the match and all its people are out of the register; nobody else and
      no other match is touched. */
  lemma LeavingExactly(s: State, client: int)
    requires Inv(s) && client in s.byClient
    ensures var h := s.byClient[client];
            var e, t := s.store[h], Leaving(s, client);
            && t.connections == s.connections && t.next == s.next && t.store.Keys == s.store.Keys
            && (forall k :: k in s.store && k != h ==> t.store[k] == s.store[k])
            && (t.store[h].over <==> !KeptByOther(e, client))
            && (KeptByOther(e, client) ==>
                  t.byId == s.byId && t.byClient == s.byClient - {client} && OnlyLacks(t.store[h], e, client))
            && (!KeptByOther(e, client) ==> t.byId == s.byId - {e.id} && t.byClient == s.byClient - People(e))
  {
    var h := s.byClient[client];
    var e := s.store[h];
    assert InMatch(s.store, h, client);
    EntryOnlyLacks(e, client);
    EntryWithoutIs(e, client);
    hide Inv, KeptByOther, OnlyLacks, IsActive, EntryWithout, People;
    var f := EntryWithout(e, client);
    if !IsActive(f.seats) {
      assert s.byClient - People(f) - {client} == s.byClient - People(e) by {
        assert client in People(e);
      }
    }
  }

  /** Closing the connection does the same, and forgets the connection. */
  lemma ClosingExactly(s: State, client: int)
    requires Inv(s)
    ensures Closing(s, client) == Leaving(s, client).(connections := s.connections - {client})
    ensures client !in s.byClient ==> Leaving(s, client) == s
  {
    ConnectionsApart(s, client, s.connections - {client});
    hide Leaving, Inv;
    assert client !in s.byClient ==> Leaving(s, client) == s by { NothingToLeave(s, client); }
  }

  lemma NothingToLeave(s: State, client: int)
    ensures client !in s.byClient ==> Leaving(s, client) == s
  {
  }

  /** Exactly these requests create a match. */
  lemma CreateAcceptedExactly(s: State, client: int, id: string, columnCount: int, request: Request)
    ensures CreateProblem(s, client, id, columnCount, request) == None <==>
              && (forall i :: 0 <= i < |id| ==>
                    id[i] == '_' || '0' <= id[i] <= '9' || 'A' <= id[i] <= 'Z' || 'a' <= id[i] <= 'z')
              && 1 <= columnCount <= 8 && client !in s.byClient && id !in s.byId && request != Unknown
  {
  }

  /** What creating changes: the new match with its host, registered under both keys, unless it starts at
      once and nobody can move. */
  lemma CreatingExactly(s: State, client: int, id: string, columnCount: int, color: Color, request: Request, canMove: bool)
    requires Inv(s)
    ensures var t := Creating(s, client, id, columnCount, color, request, canMove);
            if CreateProblem(s, client, id, columnCount, request).Some? then t == s
            else
              var machine := request == MachineMatch;
              var ends := machine && !canMove;
              && t.connections == s.connections && t.next == s.next + 1 && t.store.Keys == s.store.Keys + {s.next}
              && (forall k :: k in s.store ==> t.store[k] == s.store[k])
              && t.store[s.next]
                 == Entry(id, if machine then Seats(AgainstMachine, color, Some(Human(client)), Some(Machine))
                              else Seats(TwoHumans, color, Some(Human(client)), None), [], machine, ends)
              && t.byId == (if ends then s.byId else s.byId[id := s.next])
              && t.byClient == if ends then s.byClient else s.byClient[client := s.next]
  {
    if CreateProblem(s, client, id, columnCount, request) == None {
      var e := NewEntry(client, id, color, request);
      assert People(e) == {client} && Elements([]) == {};
      hide People, CreateProblem;
      assert s.next !in s.store;
      hide Inv;
      assert s.byId[id := s.next] - {id} == s.byId by { NotThere(s, client, id, columnCount, request); }
      assert s.byClient[client := s.next] - {client} == s.byClient by { NotThere(s, client, id, columnCount, request); }
    }
  }

  lemma NotThere(s: State, client: int, id: string, columnCount: int, request: Request)
    requires CreateProblem(s, client, id, columnCount, request) == None
    ensures id !in s.byId && client !in s.byClient
  {
  }

  /** Exactly these requests are let in. */
  lemma JoinAcceptedExactly(s: State, client: int, id: string, spectates: bool)
    requires Inv(s)
    ensures JoinProblem(s, client, id, spectates) == None <==>
              && client !in s.byClient && id in s.byId
              && (spectates || s.store[s.byId[id]].seats.host == None || s.store[s.byId[id]].seats.guest == None)
  {
    hide ClientsExact, MatchesRight;
  }

  /** What joining changes: a spectator is appended, a player takes the host's seat if it is free and else the
      guest's and the match is started; nothing else changes, unless it starts and nobody can move. */
  lemma JoiningExactly(s: State, client: int, id: string, spectates: bool, canMove: bool)
    requires Inv(s) && JoinProblem(s, client, id, spectates) == None
    ensures var t, h := Joining(s, client, id, spectates, canMove), s.byId[id];
            var e, f := s.store[h], t.store[h];
            var ends := !spectates && !e.started && !canMove;
            && t.connections == s.connections && t.next == s.next && t.store.Keys == s.store.Keys
            && (forall k :: k in s.store && k != h ==> t.store[k] == s.store[k])
            && f.id == id && f.over == ends && f.started == (e.started || !spectates)
            && f.spectators == (if spectates then e.spectators + [client] else e.spectators)
            && f.seats == (if spectates then e.seats
                           else if e.seats.host == None then e.seats.(host := Some(Human(client)))
                           else e.seats.(guest := Some(Human(client))))
            && t.byId == (if ends then s.byId - {id} else s.byId)
            && t.byClient == if ends then s.byClient - People(f) else s.byClient[client := h]
  {
    var h := s.byId[id];
    assert Running(s.store, h) && s.store[h].id == id;
    hide Inv;
    SeatedFresh(s.store[h], client, spectates);
    var f := Seated(s.store[h], client, spectates).(started := s.store[h].started || !spectates);
    hide People;
    assert People(f.(over := true)) == People(f) by { PeopleOnly(f); }
    assert client in People(f) by { SeatedTaken(s.store[h], client, spectates); PeopleOnly(f); }
    assert s.byClient[client := h] - People(f) == s.byClient - People(f);
  }

  lemma SeatedFresh(e: Entry, client: int, spectates: bool)
    ensures Seated(e, client, spectates).id == e.id && Seated(e, client, spectates).over == e.over
    ensures Seated(e, client, spectates).started == e.started
  {
  }

  lemma PeopleOnly(e: Entry)
    ensures forall started, over :: People(e.(started := started, over := over)) == People(e)
  {
  }

  lemma SeatedTaken(e: Entry, client: int, spectates: bool)
    requires spectates || e.seats.host == None || e.seats.guest == None
    ensures forall started :: client in People(Seated(e, client, spectates).(started := started))
  {
    if spectates {
      assert (e.spectators + [client])[|e.spectators|] == client;
    }
  }

  // ---- Runs ----

  lemma ApplyKeeps(s: State, a: Action)
    requires Inv(s)
    ensures Inv(Apply(s, a))
  {
    match a
    case Connecting(client) =>
    case Close(client) => ClosingKeeps(s, client);
    case _ =>
      hide Inv;
      if a.client in s.connections {
        match a
        case Create(client, id, columnCount, color, request, canMove) =>
          CreatingKeeps(s, client, id, columnCount, color, request, canMove);
        case Join(client, id, spectates, canMove) => JoiningKeeps(s, client, id, spectates, canMove);
        case Leave(client) => LeavingKeeps(s, client);
        case _ => WinningKeeps(s, a.client);
      }
  }

  lemma {:induction false} ExecKeeps(s: State, actions: seq<Action>)
    requires Inv(s)
    ensures Inv(Exec(s, actions))
    decreases |actions|
  {
    hide Inv, Apply;
    if actions != [] {
      ApplyKeeps(s, actions[0]);
      ExecKeeps(Apply(s, actions[0]), actions[1..]);
    }
  }

  /** In every run: a client is registered for a match exactly when he is its human host, its human
      guest or a spectator of it and it is not over; a match is registered under its own id exactly
      while it is not over; it has somebody in a seat; and nobody has two roles, in one match or two. */
  lemma RegisterIsExact(actions: seq<Action>)
    ensures var s := Exec(EMPTY, actions);
            && (forall c, h :: c in s.byClient && s.byClient[c] == h <==> InMatch(s.store, h, c))
            && (forall id, h :: id in s.byId && s.byId[id] == h <==> Running(s.store, h) && s.store[h].id == id)
            && (forall h :: Running(s.store, h) ==> IsActive(s.store[h].seats) && OneRole(s.store[h]))
            && (forall h, k, c :: InMatch(s.store, h, c) && InMatch(s.store, k, c) ==> h == k)
            && (forall c :: c in s.byClient ==> c in s.connections)
  {
    hide Exec, People, OneRole, IsActive, WellSeated;
    ExecKeeps(EMPTY, actions);
  }

  /** Winning ends the match of the client, as leaving the last seat would; nothing else changes. */
  lemma WinningExactly(s: State, client: int)
    requires Inv(s)
    ensures client !in s.byClient ==> Winning(s, client) == s
    ensures client in s.byClient ==>
              var h, t := s.byClient[client], Winning(s, client);
              && t.store == s.store[h := s.store[h].(over := true)]
              && t == s.(store := t.store, byId := s.byId - {s.store[h].id}, byClient := s.byClient - People(s.store[h]))
  {
    hide People, IdsExact, MatchesRight;
  }

  /** The last thing that was heard of the client's connection is that it was opened. */
  ghost predicate ConnectionOpen(actions: seq<Action>, client: int) {
    exists i :: 0 <= i < |actions| && actions[i] == Connecting(client)
             && forall j :: i < j < |actions| ==> actions[j] != Close(client)
  }

  lemma ConnectionsAfter(s: State, a: Action)
    ensures Apply(s, a).connections == match a
                                       case Connecting(client) => s.connections + {client}
                                       case Close(client) => s.connections - {client}
                                       case _ => s.connections
    ensures !a.Connecting? && !a.Close? && a.client !in s.connections ==> Apply(s, a) == s
  {
    hide People, EntryWithout, IsActive, NewEntry, Seated, CreateProblem, JoinProblem;
  }

  lemma {:induction false} ConnectionsFrom(s: State, actions: seq<Action>, client: int)
    ensures client in Exec(s, actions).connections <==>
              || ConnectionOpen(actions, client)
              || (client in s.connections && forall j :: 0 <= j < |actions| ==> actions[j] != Close(client))
    decreases |actions|
  {
    hide Apply;
    if actions != [] {
      var rest := actions[1..];
      ConnectionsAfter(s, actions[0]);
      ConnectionsFrom(Apply(s, actions[0]), rest, client);
      OpenFirst(actions, client);
      assert forall j :: 0 <= j < |rest| ==> rest[j] == actions[j + 1];
      assert (forall j :: 0 <= j < |actions| ==> actions[j] != Close(client)) <==>
             actions[0] != Close(client) && forall j :: 0 <= j < |rest| ==> rest[j] != Close(client) by {
        assert actions == [actions[0]] + rest;
      }
      hide ConnectionOpen;
    }
  }

  lemma OpenFirst(actions: seq<Action>, client: int)
    requires actions != []
    ensures ConnectionOpen(actions, client) <==>
              || ConnectionOpen(actions[1..], client)
              || (actions[0] == Connecting(client) && forall j :: 0 <= j < |actions[1..]| ==> actions[1..][j] != Close(client))
  {
    var rest := actions[1..];
    if i :| 0 <= i < |rest| && rest[i] == Connecting(client) && forall j :: i < j < |rest| ==> rest[j] != Close(client) {
      assert actions[i + 1] == Connecting(client);
      forall j | i + 1 < j < |actions|
        ensures actions[j] != Close(client)
      {
        assert actions[j] == rest[j - 1];
      }
    }
    if i :| 0 <= i < |actions| && actions[i] == Connecting(client) && forall j :: i < j < |actions| ==> actions[j] != Close(client) {
      assert forall j :: 0 <= j < |rest| ==> rest[j] == actions[j + 1];
      if 0 < i {
        assert rest[i - 1] == Connecting(client);
      }
    }
    if actions[0] == Connecting(client) && forall j :: 0 <= j < |rest| ==> rest[j] != Close(client) {
      forall j | 0 < j < |actions|
        ensures actions[j] != Close(client)
      {
        assert actions[j] == rest[j - 1];
      }
    }
  }

  /** In every run exactly those clients are connected whose connection was opened and not closed since. */
  lemma ConnectedExactly(actions: seq<Action>, client: int)
    ensures client in Exec(EMPTY, actions).connections <==> ConnectionOpen(actions, client)
  {
    hide Exec, ConnectionOpen;
    ConnectionsFrom(EMPTY, actions, client);
  }
}
