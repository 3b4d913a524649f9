/** Who sits at a match of Probability Chess. */
module ChessSeats {
  import opened ChessBoard
  import opened Wrappers

  datatype Player = Human(client: int) | Machine

  datatype Role = Host | Guest

  /** A match between two people, or one whose guest is a machine player. */
  datatype MatchKind = TwoHumans | AgainstMachine

  datatype Seats = Seats(kind: MatchKind, hostColor: Color, host: Option<Player>, guest: Option<Player>)

  predicate IsHuman(player: Option<Player>, client: int) {
    player == Some(Human(client))
  }

  /** The host is a person; the guest is the machine player in a match against it, else a person. */
  predicate WellSeated(s: Seats) {
    && s.host != Some(Machine)
    && (s.kind == AgainstMachine ==> s.guest == Some(Machine))
    && (s.kind == TwoHumans ==> s.guest != Some(Machine))
  }

  predicate IsActive(s: Seats) {
    match s.kind
    case TwoHumans => s.host.Some? || s.guest.Some?
    case AgainstMachine => s.host.Some?
  }

  predicate IsReady(s: Seats) {
    match s.kind
    case TwoHumans => s.host.Some? && s.guest.Some?
    case AgainstMachine => s.host.Some?
  }

  predicate HasClient(s: Seats, client: int) {
    match s.kind
    case TwoHumans => IsHuman(s.host, client) || IsHuman(s.guest, client)
    case AgainstMachine => IsHuman(s.host, client)
  }

  function RoleOf(s: Seats, turn: Color): Role {
    if turn == s.hostColor then Host else Guest
  }

  function Seat(s: Seats, role: Role): Option<Player> {
    if role == Host then s.host else s.guest
  }
}
