/**
 The register of running matches: matches by id, matches by client, and who takes part in each match.
 Matches are shared objects; a handle stands for one object, so an id may be used again by a new match.
 */
module ChessRegistry {
  import opened ChessBoard
  import opened ChessSeats
  import opened Wrappers

  datatype Entry = Entry(id: string, seats: Seats, spectators: seq<int>, started: bool, over: bool)

  datatype State = State(connections: set<int>, store: map<nat, Entry>, next: nat,
                         byId: map<string, nat>, byClient: map<int, nat>)

  datatype Problem = InvalidId | InvalidColumnCount | AlreadyInMatch | IdTaken | InvalidType | NoSuchMatch | Full | NotInMatch

  datatype Result = Done | Refused(problem: Problem)

  /** The requested type of match; the one-player test match is not part of this model. */
  datatype Request = HumanMatch | MachineMatch | Unknown

  const EMPTY := State({}, map[], 0, map[], map[])

  predicate ValidIdChar(c: char) {
    'a' <= c <= 'z' || 'A' <= c <= 'Z' || '0' <= c <= '9' || c == '_'
  }

  function HumanClients(player: Option<Player>): set<int> {
    match player
    case Some(Human(client)) => {client}
    case _ => {}
  }

  function Elements(s: seq<int>): set<int> {
    set x | x in s
  }

  /** The clients that take part in a match. */
  function People(e: Entry): set<int> {
    HumanClients(e.seats.host) + HumanClients(e.seats.guest) + Elements(e.spectators)
  }

  // ---- What each operation does to the whole register ----

  function Without(s: seq<int>, client: int): seq<int> {
    if s == [] then []
    else Without(s[..|s| - 1], client) + if s[|s| - 1] == client then [] else [s[|s| - 1]]
  }

  function Left(seat: Option<Player>, client: int): Option<Player> {
    if IsHuman(seat, client) then None else seat
  }

  function EntryWithout(e: Entry, client: int): Entry {
    e.(spectators := Without(e.spectators, client),
       seats := e.seats.(host := Left(e.seats.host, client), guest := Left(e.seats.guest, client)))
  }

  /** Match.end: the match is over and its people are free. */
  function Ended(s: State, h: nat): State
    requires h in s.store
  {
    s.(store := s.store[h := s.store[h].(over := true)],
       byId := s.byId - {s.store[h].id},
       byClient := s.byClient - People(s.store[h]))
  }

  /** Match.disconnect. */
  function Disconnected(s: State, h: nat, client: int): State
    requires h in s.store
  {
    var t := s.(store := s.store[h := EntryWithout(s.store[h], client)]);
    if IsActive(t.store[h].seats) then t else Ended(t, h)
  }

  function Leaving(s: State, client: int): State {
    if client in s.byClient && s.byClient[client] in s.store then
      var t := Disconnected(s, s.byClient[client], client);
      t.(byClient := t.byClient - {client})
    else s
  }

  function Closing(s: State, client: int): State {
    Leaving(s.(connections := s.connections - {client}), client)
  }

  function CreateProblem(s: State, client: int, id: string, columnCount: int, request: Request): Option<Problem> {
    if exists i :: 0 <= i < |id| && !ValidIdChar(id[i]) then Some(InvalidId)
    else if columnCount < 1 || 8 < columnCount then Some(InvalidColumnCount)
    else if client in s.byClient then Some(AlreadyInMatch)
    else if id in s.byId then Some(IdTaken)
    else if request == Unknown then Some(InvalidType)
    else None
  }

  function NewEntry(client: int, id: string, color: Color, request: Request): Entry {
    var machine := request == MachineMatch;
    Entry(id,
          Seats(if machine then AgainstMachine else TwoHumans, color, Some(Human(client)), if machine then Some(Machine) else None),
          [], machine, false)
  }

  /** `canMove` is what anyCanMove finds when the match starts. */
  function Creating(s: State, client: int, id: string, columnCount: int, color: Color, request: Request, canMove: bool): State {
    if CreateProblem(s, client, id, columnCount, request).Some? then s
    else
      var e := NewEntry(client, id, color, request);
      var t := s.(store := s.store[s.next := e], next := s.next + 1,
                  byId := s.byId[id := s.next], byClient := s.byClient[client := s.next]);
      if e.started && !canMove then Ended(t, s.next) else t
  }

  function JoinProblem(s: State, client: int, id: string, spectates: bool): Option<Problem> {
    if client in s.byClient then Some(AlreadyInMatch)
    else if id !in s.byId || s.byId[id] !in s.store then Some(NoSuchMatch)
    else if !spectates && s.store[s.byId[id]].seats.host.Some? && s.store[s.byId[id]].seats.guest.Some? then Some(Full)
    else None
  }

  function Seated(e: Entry, client: int, spectates: bool): Entry {
    if spectates then e.(spectators := e.spectators + [client])
    else if e.seats.host == None then e.(seats := e.seats.(host := Some(Human(client))))
    else if e.seats.guest == None then e.(seats := e.seats.(guest := Some(Human(client))))
    else e
  }

  function Joining(s: State, client: int, id: string, spectates: bool, canMove: bool): State {
    if JoinProblem(s, client, id, spectates).Some? then s
    else
      var h := s.byId[id];
      var e := Seated(s.store[h], client, spectates);
      var starts := !spectates && !e.started;
      var t := s.(store := s.store[h := if starts then e.(started := true) else e], byClient := s.byClient[client := h]);
      if starts && !canMove then Ended(t, h) else t
  }

  /** A move of a client captures a king and ends the match. */
  function Winning(s: State, client: int): State {
    if client in s.byClient && s.byClient[client] in s.store then Ended(s, s.byClient[client]) else s
  }

  // ---- The register as it is updated in place ----

  class Registry {
    var connections: set<int>
    var store: map<nat, Entry>
    var next: nat
    var byId: map<string, nat>
    var byClient: map<int, nat>

    function View(): State
      reads this
    {
      State(connections, store, next, byId, byClient)
    }

    constructor ()
      ensures View() == EMPTY
    {
      connections, store, next, byId, byClient := {}, map[], 0, map[], map[];
    }

    method Connect(client: int)
      modifies `connections
      ensures View() == old(View()).(connections := old(connections) + {client})
    {
      connections := connections + {client};
    }

    method EraseSeat(seat: Option<Player>)
      modifies `byClient
      ensures byClient == old(byClient) - HumanClients(seat)
    {
      if seat.Some? && seat.value.Human? {
        byClient := byClient - {seat.value.client};
      }
    }

    method End(h: nat)
      requires h in store
      modifies this
      ensures View() == Ended(old(View()), h)
    {
      var e := store[h];
      ghost var before := byClient;
      store := store[h := e.(over := true)];
      byId := byId - {e.id};
      EraseSeat(e.seats.guest);
      EraseSeat(e.seats.host);
      var left := before - (HumanClients(e.seats.guest) + HumanClients(e.seats.host));
      assert byClient == left;
      for i := 0 to |e.spectators|
        invariant byClient == left - Elements(e.spectators[..i])
        invariant connections == old(connections) && next == old(next)
        invariant store == old(store)[h := e.(over := true)] && byId == old(byId) - {e.id}
      {
        assert Elements(e.spectators[..i + 1]) == Elements(e.spectators[..i]) + {e.spectators[i]};
        byClient := byClient - {e.spectators[i]};
      }
      assert e.spectators[..|e.spectators|] == e.spectators;
      assert byClient == before - People(e);
    }

    method Disconnect(h: nat, client: int)
      requires h in store
      modifies this
      ensures View() == Disconnected(old(View()), h, client)
    {
      hide Ended;
      var e := store[h];
      var kept: seq<int> := [];
      for i := 0 to |e.spectators|
        invariant kept == Without(e.spectators[..i], client)
      {
        assert e.spectators[..i + 1][..i] == e.spectators[..i];
        if e.spectators[i] != client {
          kept := kept + [e.spectators[i]];
        }
      }
      assert e.spectators[..|e.spectators|] == e.spectators;
      e := e.(spectators := kept);
      if IsHuman(e.seats.host, client) {
        e := e.(seats := e.seats.(host := None));
      }
      if IsHuman(e.seats.guest, client) {
        e := e.(seats := e.seats.(guest := None));
      }
      store := store[h := e];
      if !IsActive(e.seats) {
        End(h);
      }
    }

    method LeaveMatch(client: int) returns (result: Result)
      requires client in byClient ==> byClient[client] in store
      modifies this
      ensures View() == Leaving(old(View()), client)
      ensures result == if client in old(byClient) then Done else Refused(NotInMatch)
    {
      hide Disconnected;
      if client !in byClient {
        return Refused(NotInMatch);
      }
      Disconnect(byClient[client], client);
      byClient := byClient - {client};
      result := Done;
    }

    method HandleClose(client: int)
      requires client in byClient ==> byClient[client] in store
      modifies this
      ensures View() == Closing(old(View()), client)
    {
      hide Disconnected;
      connections := connections - {client};
      if client in byClient {
        Disconnect(byClient[client], client);
        byClient := byClient - {client};
      }
    }

    method CreateMatch(client: int, id: string, columnCount: int, color: Color, request: Request, canMove: bool)
      returns (result: Result)
      modifies this
      ensures View() == Creating(old(View()), client, id, columnCount, color, request, canMove)
      ensures result == match CreateProblem(old(View()), client, id, columnCount, request)
                        case None => Done
                        case Some(problem) => Refused(problem)
    {
      hide Ended;
      for i := 0 to |id|
        invariant forall k :: 0 <= k < i ==> ValidIdChar(id[k])
      {
        if !ValidIdChar(id[i]) {
          return Refused(InvalidId);
        }
      }
      if columnCount < 1 || 8 < columnCount {
        return Refused(InvalidColumnCount);
      }
      if client in byClient {
        return Refused(AlreadyInMatch);
      }
      if id in byId {
        return Refused(IdTaken);
      }
      if request == Unknown {
        return Refused(InvalidType);
      }
      var e := NewEntry(client, id, color, request).(started := false);
      var h := next;
      store, next := store[h := e], next + 1;
      byId := byId[id := h];
      byClient := byClient[client := h];
      if IsReady(e.seats) {
        store := store[h := e.(started := true)];
        assert store == old(store)[h := e.(started := true)];
        if !canMove {
          End(h);
        }
      }
      result := Done;
    }

    method JoinMatch(client: int, id: string, spectates: bool, canMove: bool) returns (result: Result)
      requires id in byId ==> byId[id] in store
      modifies this
      ensures View() == Joining(old(View()), client, id, spectates, canMove)
      ensures result == match JoinProblem(old(View()), client, id, spectates)
                        case None => Done
                        case Some(problem) => Refused(problem)
    {
      hide Ended;
      if client in byClient {
        return Refused(AlreadyInMatch);
      }
      if id !in byId {
        return Refused(NoSuchMatch);
      }
      var h := byId[id];
      var e := store[h];
      if !spectates && e.seats.host.Some? && e.seats.guest.Some? {
        return Refused(Full);
      }
      byClient := byClient[client := h];
      if spectates {
        e := e.(spectators := e.spectators + [client]);
      } else if e.seats.host == None {
        e := e.(seats := e.seats.(host := Some(Human(client))));
      } else if e.seats.guest == None {
        e := e.(seats := e.seats.(guest := Some(Human(client))));
      }
      store := store[h := e];
      if !spectates && !e.started {
        store := store[h := e.(started := true)];
        assert store == old(store)[h := e.(started := true)];
        if !canMove {
          End(h);
        }
      }
      result := Done;
    }
  }
}
