/** A match: checking and making moves, rolling columns, passing the turn, and the machine's replies. */
module ChessMatch {
  import opened ChessBoard
  import opened ChessMoves
  import opened ChessRules
  import opened ChessSearch
  import opened ChessSeats
  import opened Wrappers

  datatype Error = MissingParticipant | AlreadyOver | InvalidConnection | InvalidTurn | NoSourcePiece
                 | NotYourPiece | NoMovement | IncorrectColumn | InvalidMove

  /** Unfinished stands for the dice loops that have not ended with the dice at hand. */
  datatype Outcome = Refused(error: Error) | Accepted | Unfinished

  datatype Chooser = AtRandom | ByScore(superior: (LabeledMove, LabeledMove) -> bool)

  type Die = d: int | 1 <= d <= 6 witness 1

  /** The checks of makeMove, in order. */
  ghost function Check(seats: Seats, game: Game, role: Role, m: Move): Option<Error> {
    var player := Seat(seats, role);
    if !IsReady(seats) then Some(MissingParticipant)
    else if game.winner.Some? then Some(AlreadyOver)
    else if player.Some? && player.value.Human? && !HasClient(seats, player.value.client) then Some(InvalidConnection)
    else if role != RoleOf(seats, game.turn) then Some(InvalidTurn)
    else if m.from !in game.board then Some(NoSourcePiece)
    else if game.board[m.from].color != game.turn then Some(NotYourPiece)
    else if m.from == m.to then Some(NoMovement)
    else if m.from.column !in game.columns then Some(IncorrectColumn)
    else if !CanReach(game.board, game.board[m.from], m.to) then Some(InvalidMove)
    else None
  }

  /** A move passes every check exactly when both seats are taken, the game is not won, it is the player's
      turn (the host's for his colour, the guest's for the other), and the move is playable. */
  lemma PassesExactly(seats: Seats, game: Game, role: Role, m: Move)
    requires Consistent(game.board) && WellSeated(seats)
    ensures Check(seats, game, role, m) == None <==>
              && seats.host.Some? && seats.guest.Some? && game.winner == None
              && (role == Host <==> game.turn == seats.hostColor)
              && Playable(game.board, game.turn, game.columns, m)
  {
    hide Reaches;
    if m.from in game.board && CanReach(game.board, game.board[m.from], m.to) {
      ReachesElsewhere(game.board, game.board[m.from], m.to);
    }
  }

  /** Which error a move is refused with. That the connection is the wrong one is never among them. */
  lemma RefusedExactly(seats: Seats, game: Game, role: Role, m: Move)
    requires Consistent(game.board) && WellSeated(seats)
    ensures var g, error := game.board, Check(seats, game, role, m);
            var ready := seats.host.Some? && seats.guest.Some?;
            var playing := ready && game.winner == None && (role == Host <==> game.turn == seats.hostColor);
            var owned := playing && m.from in g && g[m.from].color == game.turn;
            && (error == Some(MissingParticipant) <==> !ready)
            && (error == Some(AlreadyOver) <==> ready && game.winner.Some?)
            && error != Some(InvalidConnection)
            && (error == Some(InvalidTurn) <==> ready && game.winner == None && !playing)
            && (error == Some(NoSourcePiece) <==> playing && m.from !in g)
            && (error == Some(NotYourPiece) <==> playing && m.from in g && !owned)
            && (error == Some(NoMovement) <==> owned && m.from == m.to)
            && (error == Some(IncorrectColumn) <==> owned && m.from != m.to && m.from.column !in game.columns)
            && (error == Some(InvalidMove) <==>
                  owned && m.from != m.to && m.from.column in game.columns && !CanReach(g, g[m.from], m.to))
  {
    hide CanReach;
  }

  /** Every move a machine player can choose passes every check of makeMove. */
  lemma MachineMoveAccepted(seats: Seats, game: Game, m: Move)
    requires Consistent(game.board) && WellSeated(seats) && seats.kind == AgainstMachine && seats.host.Some?
    requires game.winner == None && game.turn != seats.hostColor
    requires Playable(game.board, game.turn, game.columns, m)
    ensures Check(seats, game, Guest, m) == None
  {
    hide Check, Playable;
    PassesExactly(seats, game, Guest, m);
  }

  lemma ReachesElsewhere(g: Position, p: Piece, to: Square)
    requires CanReach(g, p, to) && OnBoard(p.square)
    ensures to != p.square
  {
    ReachMoves(g, p, to);
  }

  function Rolled(a: Die, b: Die): nat {
    (a + b - 1) % 8
  }

  /** The column that two dice name: their sum, counted round the eight columns. */
  method Column(a: Die, b: Die) returns (column: nat)
    ensures column == Rolled(a, b)
  {
    var sum := a + b;
    while 8 < sum
      invariant 0 < sum && sum % 8 == (a + b) % 8
    {
      sum := sum - 8;
    }
    column := sum - 1;
  }

  /** The sum of the dice names the column of that number, counted from one, and goes round behind the
      eighth. */
  lemma RolledGoesRound(a: Die, b: Die)
    ensures Rolled(a, b) == if a + b <= 8 then a + b - 1 else a + b - 9
  {
  }

  /** The columns that the first n pairs of dice name. */
  function RolledIn(dice: seq<(Die, Die)>, n: nat): (columns: Columns)
    requires n <= |dice|
  {
    if n == 0 then {} else RolledIn(dice, n - 1) + {Rolled(dice[n - 1].0, dice[n - 1].1)}
  }

  lemma NothingRolled(dice: seq<(Die, Die)>)
    ensures RolledIn(dice, 0) == {}
  {
  }

  lemma RolledNext(dice: seq<(Die, Die)>, n: nat)
    requires n < |dice|
    ensures RolledIn(dice, n + 1) == RolledIn(dice, n) + {Rolled(dice[n].0, dice[n].1)}
  {
  }

  /** More rolls of columns that are there already add nothing. */
  lemma {:induction false} RolledAgain(dice: seq<(Die, Die)>, used: nat, n: nat)
    requires used + n <= |dice|
    requires forall k :: 0 <= k < n ==> Rolled(dice[used..][k].0, dice[used..][k].1) in RolledIn(dice, used)
    ensures RolledIn(dice, used + n) == RolledIn(dice, used)
    decreases n
  {
    hide Rolled;
    if 0 < n {
      RolledAgain(dice, used, n - 1);
      assert dice[used..][n - 1] == dice[used + n - 1];
    }
  }

  /** The last of n rolls names a column that is new, and the others none. */
  lemma ColumnFound(dice: seq<(Die, Die)>, used: nat, n: nat, column: nat)
    requires 0 < n && used + n <= |dice|
    requires forall k :: 0 <= k < n - 1 ==> Rolled(dice[used..][k].0, dice[used..][k].1) in RolledIn(dice, used)
    requires column == Rolled(dice[used..][n - 1].0, dice[used..][n - 1].1) && column !in RolledIn(dice, used)
    ensures RolledIn(dice, used + n - 1) == RolledIn(dice, used)
    ensures RolledIn(dice, used + n) == RolledIn(dice, used) + {column}
    ensures |RolledIn(dice, used + n)| == |RolledIn(dice, used)| + 1
  {
    hide Rolled, RolledIn;
    RolledAgain(dice, used, n - 1);
    RolledNext(dice, used + n - 1);
    assert dice[used..][n - 1] == dice[used + n - 1];
  }

  /** Two dice can name every column. */
  lemma EveryColumnCanBeRolled(column: nat)
    requires column < 8
    ensures exists a: Die, b: Die :: Rolled(a, b) == column
  {
    var a: Die := if column == 0 then 3 else if column <= 5 then 1 else 4;
    var b: Die := if column == 0 then 6 else if column <= 5 then column else column - 3;
    assert Rolled(a, b) == column;
  }

  class Match {
    const board: Board
    const kind: MatchKind
    const hostColor: Color
    const noSkip: bool
    const columnCount: nat
    const chooser: Chooser
    var host: Option<Player>
    var guest: Option<Player>
    var turn: Color
    var captured: seq<Piece>
    var columns: Columns
    var winner: Option<Color>
    var over: bool
    /** What rand() will return: pairs of dice, and numbers for the random player. */
    var dice: seq<(Die, Die)>
    var draws: seq<nat>

    ghost function View(): Game
      requires board.Valid()
      reads this, board.pieces
    {
      Game(board.View(), captured, turn, columns, winner)
    }

    function SeatsNow(): Seats
      reads this
    {
      Seats(kind, hostColor, host, guest)
    }

    ghost predicate Valid()
      reads this, board.pieces
    {
      && board.Valid()
      && Inv(View())
      && WellSeated(SeatsNow())
      && 1 <= columnCount <= 8
    }

    constructor (kind: MatchKind, hostColor: Color, noSkip: bool, columnCount: nat, client: int, chooser: Chooser,
                 dice: seq<(Die, Die)>, draws: seq<nat>)
      requires 1 <= columnCount <= 8
      ensures Valid() && fresh(board.pieces) && View() == StartGame({})
      ensures SeatsNow() == Seats(kind, hostColor, Some(Human(client)), if kind == TwoHumans then None else Some(Machine))
      ensures !over && this.dice == dice && this.columnCount == columnCount
    {
      this.kind, this.hostColor, this.noSkip, this.columnCount := kind, hostColor, noSkip, columnCount;
      this.chooser, this.dice, this.draws := chooser, dice, draws;
      host, guest := Some(Human(client)), if kind == TwoHumans then None else Some(Machine);
      turn, captured, columns, winner, over := White, [], {}, None, false;
      board := new Board();
      new;
      board.PlacePieces();
      StartHolds({});
    }

    /** Rolls until there are enough different columns: the shortest list of dice that names so many. */
    method Roll() returns (finished: bool)
      modifies `columns, `dice
      requires 1 <= columnCount <= 8
      ensures |dice| <= |old(dice)| && dice == old(dice)[|old(dice)| - |dice|..]
      ensures columns == RolledIn(old(dice), |old(dice)| - |dice|)
      ensures finished ==>
                && |dice| < |old(dice)| && |columns| == columnCount
                && |RolledIn(old(dice), |old(dice)| - |dice| - 1)| < columnCount
      ensures !finished ==> dice == [] && |columns| < columnCount
      ensures forall c :: c in columns ==> c < 8
    {
      hide RolledIn, Rolled;
      columns := {};
      ghost var all, used := dice, 0;
      NothingRolled(all);
      for i := 0 to columnCount
        invariant i <= used <= |all| && dice == all[used..]
        invariant columns == RolledIn(all, used) && |columns| == i
        invariant 0 < i ==> 0 < used && |RolledIn(all, used - 1)| < i
        invariant forall c :: c in columns ==> c < 8
      {
        var column, n := NewColumn(columns);
        if column == None {
          RolledAgain(all, used, n);
          return false;
        }
        ColumnFound(all, used, n, column.value);
        columns, used := columns + {column.value}, used + n;
      }
      finished := true;
    }

    /** The inner loop: rolls until the column is not one of those that were rolled before. */
    method NewColumn(taken: Columns) returns (column: Option<nat>, ghost n: nat)
      modifies `dice
      ensures n <= |old(dice)| && dice == old(dice)[n..]
      ensures forall k :: 0 <= k < n - (if column.Some? then 1 else 0) ==> Rolled(old(dice)[k].0, old(dice)[k].1) in taken
      ensures match column
              case None => dice == []
              case Some(c) => 0 < n && c == Rolled(old(dice)[n - 1].0, old(dice)[n - 1].1) && c < 8 && c !in taken
    {
      n := 0;
      while true
        invariant n <= |old(dice)| && dice == old(dice)[n..]
        invariant forall k :: 0 <= k < n ==> Rolled(old(dice)[k].0, old(dice)[k].1) in taken
        decreases |dice|
      {
        if dice == [] {
          return None, n;
        }
        var next := Column(dice[0].0, dice[0].1);
        dice := dice[1..];
        n := n + 1;
        if next !in taken {
          return Some(next), n;
        }
      }
    }

    /** Promotes the pawns of one colour on their last row. */
    method PromoteRow(color: Color) returns (promoted: seq<Square>)
      requires board.Valid() && Consistent(board.View())
      modifies board.pieces
      ensures board.View() == PromotedUntil(old(board.View()), color, 8)
      ensures forall s :: s in promoted <==> PromotesAt(old(board.View()), color, s)
    {
      promoted := [];
      ghost var g := board.View();
      NothingPromoted(g, color);
      hide PromotedUntil, Consistent;
      for column := 0 to 8
        invariant board.View() == PromotedUntil(g, color, column)
        invariant forall s :: s in promoted <==> PromotesAt(g, color, s) && s.column < column
      {
        PromotedNext(g, color, column);
        var piece := board.At(Square(LastRow(color), column));
        if piece.Some? && piece.value.kind == Pawn && piece.value.color == color {
          board.Erase(piece.value);
          promoted := promoted + [piece.value.square];
          board.Set(Queen, color, Square(LastRow(color), column));
        }
      }
    }

    method CheckPawns() returns (promoted: seq<Square>)
      requires board.Valid() && Consistent(board.View())
      modifies board.pieces
      ensures board.View() == Promoted(old(board.View()))
      ensures forall s :: s in promoted <==> s in old(board.View()) && board.View()[s] != old(board.View())[s]
    {
      hide PromotedUntil, PromotesAt;
      ghost var g := board.View();
      PromotedConsistent(g, White);
      PromotedChanges(g);
      var white := PromoteRow(White);
      var black := PromoteRow(Black);
      assert forall s :: s in black <==> PromotesAt(g, Other(White), s);
      promoted := white + black;
      assert forall s :: s in promoted <==> PromotesAt(g, White, s) || PromotesAt(g, Black, s);
    }

    /** Captures what stands on the target, moves the piece and promotes pawns. */
    method MoveOnBoard(m: Move) returns (target: Option<Piece>)
      requires board.Valid() && Consistent(board.View()) && FairMove(board.View(), m)
      modifies `captured, board.pieces
      ensures target == PieceAt(old(board.View()), m.to)
      ensures captured == if target.Some? then old(captured) + [target.value] else old(captured)
      ensures board.View() == BoardAfter(old(board.View()), m)
    {
      ghost var g := board.View();
      MovedFacts(g, m);
      hide Moved, Promoted;
      var piece := board.At(m.from);
      target := board.At(m.to);
      if target.Some? {
        captured := captured + [target.value];
        board.Erase(target.value);
      }
      var moved := board.MovePiece(piece.value, m.to);
      hide Consistent;
      var promoted := CheckPawns();
    }

    /** The part of makeMove after the checks and before the turn passes. */
    method Carry(m: Move)
      requires Valid() && winner == None && Playable(board.View(), turn, columns, m)
      modifies `captured, `winner, `over, board.pieces
      ensures View() == Played(old(View()), m)
      ensures over == (old(over) || winner.Some?)
      ensures Valid()
    {
      ghost var game := View();
      Recorded(game);
      PlayableIsFair(game, m);
      PlayedKeeps(game, m);
      hide Inv, Playable, BoardAfter, FairMove, Consistent;
      var target := MoveOnBoard(m);
      if target.Some? && target.value.kind == King {
        winner := Some(turn);
        over := true;
      }
      assert View() == Played(game, m);
    }

    /** What follows when the turn passes on the board g. */
    ghost predicate Follows(g: Position, before: Color, wasOver: bool, actions: seq<Action>)
    {
      exists rolls, passed :: FollowsBy(g, before, wasOver, actions, rolls, passed)
    }

    /** The turn passes by these rolls; then the machine replies if it is its turn, and else nothing follows. */
    ghost predicate FollowsBy(g: Position, before: Color, wasOver: bool, actions: seq<Action>, rolls: seq<Action>, passed: bool)
    {
      && actions != [] && actions[0].Turn?
      && TurnPasses(g, noSkip, columnCount, before, rolls, actions[0], passed)
      && if passed && kind == AgainstMachine && actions[0].turn != hostColor && !wasOver
         then 1 < |actions| && actions[1].Play? else |actions| == 1
    }

    method MakeMove(role: Role, m: Move) returns (outcome: Outcome, ghost actions: seq<Action>)
      requires Valid() && Seat(SeatsNow(), role).Some?
      modifies this, board.pieces
      ensures Valid() && SeatsNow() == old(SeatsNow())
      ensures match Check(old(SeatsNow()), old(View()), role, m)
              case Some(e) => outcome == Refused(e) && View() == old(View()) && over == old(over) && actions == []
              case None =>
                && !outcome.Refused?
                && actions != [] && actions[0] == Play(m)
                && Leads(old(View()), actions, View())
                && over == (old(over) || winner.Some?)
                && if TakesKing(old(board.View()), m) then |actions| == 1
                   else Follows(BoardAfter(old(board.View()), m), old(turn), old(over), actions[1..])
      ensures outcome == Unfinished ==> dice == []
      ensures outcome == Accepted && winner == None && kind == AgainstMachine && !over ==> turn == hostColor
      ensures outcome == Accepted && winner == None ==> SomePlayable(board.View(), turn, columns)
      decreases |dice|, 1
    {
      hide Inv, CanReach, Playable, Leads, SomePlayable, Follows, BoardAfter;
      actions := [];
      ghost var game := View();
      Recorded(game);
      if !IsReady(SeatsNow()) {
        return Refused(MissingParticipant), [];
      }
      if winner.Some? {
        return Refused(AlreadyOver), [];
      }
      var player := Seat(SeatsNow(), role).value;
      if player.Human? && !HasClient(SeatsNow(), player.client) {
        return Refused(InvalidConnection), [];
      }
      if role != RoleOf(SeatsNow(), turn) {
        return Refused(InvalidTurn), [];
      }
      var fromPiece := board.At(m.from);
      if fromPiece == None {
        return Refused(NoSourcePiece), [];
      }
      if fromPiece.value.color != turn {
        return Refused(NotYourPiece), [];
      }
      if m.from == m.to {
        return Refused(NoMovement), [];
      }
      if m.from.column !in columns {
        return Refused(IncorrectColumn), [];
      }
      var squares := CanMoveTo(board, fromPiece.value);
      var canMove := Contains(squares, m.to);
      if !canMove {
        return Refused(InvalidMove), [];
      }
      PassesExactly(SeatsNow(), game, role, m);
      Carry(m);
      ghost var played := View();
      LeadsOne(game, Play(m));
      assert played.winner.Some? <==> TakesKing(game.board, m);
      assert played.board == BoardAfter(game.board, m) && played.turn == game.turn;
      if winner.Some? {
        return Accepted, [Play(m)];
      }
      ghost var later;
      outcome, later := AfterMove();
      LeadsThen(game, [Play(m)], played, later, View());
      actions := [Play(m)] + later;
      assert actions[1..] == later;
    }

    /** Passes the turn until the player can move, and lets the machine reply. */
    method AfterMove() returns (outcome: Outcome, ghost actions: seq<Action>)
      requires Valid() && winner == None && IsReady(SeatsNow())
      modifies this, board.pieces
      ensures Valid() && SeatsNow() == old(SeatsNow())
      ensures !outcome.Refused? && Leads(old(View()), actions, View())
      ensures Follows(old(board.View()), old(turn), old(over), actions)
      ensures outcome == Unfinished ==> dice == []
      ensures over == (old(over) || winner.Some?)
      ensures outcome == Accepted && winner == None && kind == AgainstMachine && !over ==> turn == hostColor
      ensures outcome == Accepted && winner == None ==> SomePlayable(board.View(), turn, columns)
      decreases |dice|, 0
    {
      hide Inv, CanReach, Playable, Played, Leads, SomePlayable, TurnPasses;
      ghost var game := View();
      var finished, rolls := PassTurn();
      actions := [Turn(turn, columns)];
      LeadsOne(game, Turn(turn, columns));
      if !finished {
        assert FollowsBy(game.board, game.turn, over, actions, rolls, false);
        return Unfinished, actions;
      }
      outcome := Accepted;
      ghost var wasOver := over;
      if kind == AgainstMachine && turn != hostColor && !over {
        ghost var turned := View();
        Recorded(turned);
        var move := Choose();
        MachineMoveAccepted(SeatsNow(), turned, move);
        ghost var later;
        outcome, later := MakeMove(Guest, move);
        LeadsThen(game, actions, turned, later, View());
        actions := actions + later;
      }
      assert FollowsBy(game.board, game.turn, wasOver, actions, rolls, true);
    }

    /** The turn loop: with noSkip the same player rolls until he can move, else the turn goes on. */
    method PassTurn() returns (finished: bool, ghost rolls: seq<Action>)
      requires Valid() && winner == None
      modifies `turn, `columns, `dice
      ensures Valid() && |dice| <= |old(dice)| && (finished ==> |dice| < |old(dice)|)
      ensures TurnPasses(board.View(), noSkip, columnCount, old(turn), rolls, Turn(turn, columns), finished)
      ensures !finished ==> dice == []
      ensures finished ==> SomePlayable(board.View(), turn, columns)
      ensures finished ==> |columns| == columnCount && forall c :: c in columns ==> c < 8
    {
      hide Inv, SomePlayable, RolledIn, Rolls, TurnOf, TurnLeft;
      ghost var game := View();
      var can := false;
      rolls := [];
      NoRolls(game.board, noSkip, columnCount, game.turn);
      FirstTurn(game.turn, noSkip);
      if noSkip {
        turn := Other(turn);
      }
      Recorded(game);
      while !can
        invariant View() == game.(turn := turn, columns := columns) && |dice| <= |old(dice)|
        invariant can ==> |dice| < |old(dice)| && SomePlayable(board.View(), turn, columns)
        invariant can ==> |columns| == columnCount && forall c :: c in columns ==> c < 8
        invariant Rolls(game.board, noSkip, columnCount, game.turn, rolls, can)
        invariant can ==> rolls != [] && rolls[|rolls| - 1] == Turn(turn, columns)
        invariant turn == TurnLeft(game.turn, noSkip, |rolls|)
        decreases |dice| + if can then 0 else 1
      {
        NextTurn(game.turn, noSkip, |rolls|);
        if !noSkip {
          turn := Other(turn);
        }
        var rolled := Roll();
        if !rolled {
          TurnKeeps(game, turn, columns);
          return false, rolls;
        }
        can := CanMove(board, turn, columns);
        RollAdded(game.board, noSkip, columnCount, game.turn, rolls, Turn(turn, columns), can);
        rolls := rolls + [Turn(turn, columns)];
      }
      TurnKeeps(game, turn, columns);
      finished := true;
    }

    /** The machine player's choice. */
    method Choose() returns (move: Move)
      requires Valid() && SomePlayable(board.View(), turn, columns)
      modifies `draws, board.pieces
      ensures View() == old(View())
      ensures Playable(board.View(), turn, columns, move)
    {
      hide Inv, SomePlayable, Playable;
      Recorded(View());
      match chooser
      case AtRandom =>
        var random := if draws == [] then 0 else draws[0];
        draws := if draws == [] then [] else draws[1..];
        var choice := ChooseAtRandom(board, turn, columns, random);
        move := choice.value;
      case ByScore(superior) =>
        var choice, _ := ChooseMove(board, turn, columns, superior);
        move := choice.value;
    }
  }

  /** Who has roll i after a move of `before`: with noSkip always the other player, else the two in turn. */
  function TurnOf(before: Color, noSkip: bool, i: nat): Color {
    if noSkip || i % 2 == 0 then Other(before) else before
  }

  /** Whose turn it is after n rolls, before the turn goes on. */
  function TurnLeft(before: Color, noSkip: bool, n: nat): Color {
    if n != 0 then TurnOf(before, noSkip, n - 1) else if noSkip then Other(before) else before
  }

  lemma FirstTurn(before: Color, noSkip: bool)
    ensures TurnLeft(before, noSkip, 0) == if noSkip then Other(before) else before
  {
  }

  lemma NextTurn(before: Color, noSkip: bool, n: nat)
    ensures TurnOf(before, noSkip, n) == if noSkip then TurnLeft(before, noSkip, n) else Other(TurnLeft(before, noSkip, n))
    ensures TurnLeft(before, noSkip, n + 1) == TurnOf(before, noSkip, n)
  {
  }

  /** Each roll has its player and the right number of columns, and nobody can move on a roll that is not
      the last. */
  ghost predicate Rolls(g: Position, noSkip: bool, count: nat, before: Color, rolls: seq<Action>, passed: bool) {
    && (forall i :: 0 <= i < |rolls| ==>
          rolls[i].Turn? && rolls[i].turn == TurnOf(before, noSkip, i) && |rolls[i].columns| == count)
    && (forall i :: 0 <= i < |rolls| - (if passed then 1 else 0) ==> !SomePlayable(g, rolls[i].turn, rolls[i].columns))
  }

  lemma NoRolls(g: Position, noSkip: bool, count: nat, before: Color)
    ensures Rolls(g, noSkip, count, before, [], false)
  {
  }

  lemma RollAdded(g: Position, noSkip: bool, count: nat, before: Color, rolls: seq<Action>, roll: Action, passed: bool)
    requires Rolls(g, noSkip, count, before, rolls, false)
    requires roll.Turn? && roll.turn == TurnOf(before, noSkip, |rolls|) && |roll.columns| == count
    requires !passed ==> !SomePlayable(g, roll.turn, roll.columns)
    ensures Rolls(g, noSkip, count, before, rolls + [roll], passed)
  {
    hide SomePlayable, TurnOf;
  }

  /** The turn passes by these rolls, and a loop that ends does so with the last roll, on which its player
      can move. */
  ghost predicate TurnPasses(g: Position, noSkip: bool, count: nat, before: Color, rolls: seq<Action>, after: Action,
                             passed: bool) {
    && Rolls(g, noSkip, count, before, rolls, passed)
    && after.Turn?
    && if passed then rolls != [] && rolls[|rolls| - 1] == after && SomePlayable(g, after.turn, after.columns)
       else after.turn == TurnOf(before, noSkip, |rolls|)
  }

  lemma Recorded(game: Game)
    requires Inv(game)
    ensures Consistent(game.board)
  {
  }

  lemma LeadsOne(game: Game, a: Action)
    requires Possible(game, a)
    ensures Leads(game, [a], Apply(game, a))
  {
    assert Leads(Apply(game, a), [], Apply(game, a));
  }

  /** A pawn has reached its last row. */
  predicate PromotesAt(g: Position, c: Color, s: Square) {
    s in g && g[s].kind == Pawn && g[s].color == c && s.row == LastRow(c)
  }

  lemma NothingPromoted(g: Position, c: Color)
    requires forall s :: s in g ==> OnBoard(s)
    ensures PromotedUntil(g, c, 0) == g
  {
  }

  lemma PromotedNext(g: Position, c: Color, column: int)
    requires Consistent(g)
    ensures var s, h := Square(LastRow(c), column), PromotedUntil(g, c, column);
            && PieceAt(h, s) == PieceAt(g, s)
            && (s in g ==> OnBoard(s) && g[s].square == s)
            && PromotedUntil(g, c, column + 1)
               == if s in g && g[s].kind == Pawn && g[s].color == c then (h - {s})[s := Piece(Queen, c, s)] else h
  {
  }

  lemma PromotedChanges(g: Position)
    requires Consistent(g)
    ensures Promoted(g).Keys == g.Keys
    ensures forall s :: s in g && Promoted(g)[s] != g[s] <==> PromotesAt(g, White, s) || PromotesAt(g, Black, s)
  {
  }

  lemma PromotedConsistent(g: Position, c: Color)
    requires Consistent(g)
    ensures Consistent(PromotedUntil(g, c, 8))
    ensures forall s :: PromotesAt(PromotedUntil(g, c, 8), Other(c), s) <==> PromotesAt(g, Other(c), s)
  {
  }
}
