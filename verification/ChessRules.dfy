/** Probability Chess as a game: what one accepted move does, and what every run of moves keeps. */
module ChessRules {
  import opened ChessBoard
  import opened ChessMoves
  import opened ChessSearch
  import opened Wrappers

  type Columns = set<nat>

  datatype Game = Game(board: Position, captured: seq<Piece>, turn: Color, columns: Columns, winner: Option<Color>)

  function LastRow(c: Color): int {
    if c == White then 0 else 7
  }

  /** The position with the pawns of one colour in columns before `until` of their last row promoted. */
  function PromotedUntil(g: Position, c: Color, until: int): Position {
    map s | s in g ::
      if g[s].kind == Pawn && g[s].color == c && s.row == LastRow(c) && s.column < until then Piece(Queen, c, s) else g[s]
  }

  function Promoted(g: Position): Position {
    PromotedUntil(PromotedUntil(g, White, 8), Black, 8)
  }

  /** The board after a move: the captured piece is erased first. */
  function BoardAfter(g: Position, m: Move): Position
    requires m.from in g
  {
    Promoted(Moved(if m.to in g then g - {g[m.to].square} else g, g[m.from], m.to))
  }

  function TakesKing(g: Position, m: Move): bool {
    m.to in g && g[m.to].kind == King
  }

  function Played(game: Game, m: Move): Game
    requires m.from in game.board
  {
    var g := game.board;
    game.(board := BoardAfter(g, m),
          captured := if m.to in g then game.captured + [g[m.to]] else game.captured,
          winner := if TakesKing(g, m) then Some(game.turn) else game.winner)
  }

  // ---- What always holds ----

  function Own(g: Position, c: Color): set<Square> {
    set s | s in g && g[s].color == c
  }

  function Kings(g: Position, c: Color): set<Square> {
    set s | s in g && IsKing(g, c, s)
  }

  /** How many captured pieces have the colour. */
  function Lost(captured: seq<Piece>, c: Color): nat {
    if captured == [] then 0
    else Lost(captured[..|captured| - 1], c) + if captured[|captured| - 1].color == c then 1 else 0
  }

  ghost predicate SixteenEach(game: Game) {
    forall c :: |Own(game.board, c)| + Lost(game.captured, c) == 16
  }

  /** Both kings are there, exactly once, until there is a winner: then the loser has none. */
  ghost predicate KingsRight(game: Game) {
    forall c :: if game.winner == Some(Other(c)) then Kings(game.board, c) == {} else |Kings(game.board, c)| == 1
  }

  ghost predicate NoPawnOnLastRow(g: Position) {
    forall s :: s in g && g[s].kind == Pawn ==> s.row != LastRow(g[s].color)
  }

  ghost predicate Inv(game: Game) {
    && Consistent(game.board)
    && SixteenEach(game)
    && KingsRight(game)
    && NoPawnOnLastRow(game.board)
  }

  // ---- One move ----

  lemma PromotedFacts(g: Position)
    requires Consistent(g)
    ensures var h := Promoted(g);
            && h.Keys == g.Keys
            && (forall s :: s in g ==> h[s].color == g[s].color && h[s].square == s)
            && (forall s :: s in g ==> (h[s].kind == King <==> g[s].kind == King))
            && (forall s :: s in g && h[s].kind == Pawn ==> s.row != LastRow(h[s].color))
  {
  }

  /** The pieces of the board after a move, before promotion. */
  lemma MovedFacts(g: Position, m: Move)
    requires Consistent(g) && m.from in g && OnBoard(m.to) && m.from != m.to
    requires m.to in g ==> g[m.to].color != g[m.from].color
    ensures var h := Moved(if m.to in g then g - {g[m.to].square} else g, g[m.from], m.to);
            && Consistent(h)
            && h.Keys == g.Keys - {m.from} + {m.to}
            && h[m.to] == g[m.from].(square := m.to)
            && (forall s :: s in h && s != m.to ==> s in g && h[s] == g[s])
  {
  }

  ghost predicate FairMove(g: Position, m: Move) {
    && m.from in g && OnBoard(m.to) && m.from != m.to
    && (m.to in g ==> g[m.to].color != g[m.from].color)
  }

  lemma BoardAfterFacts(g: Position, m: Move)
    requires Consistent(g) && FairMove(g, m)
    ensures var h := BoardAfter(g, m);
            && Consistent(h) && NoPawnOnLastRow(h)
            && h.Keys == g.Keys - {m.from} + {m.to}
            && h[m.to].color == g[m.from].color
            && (h[m.to].kind == King <==> g[m.from].kind == King)
            && (forall s :: s in h && s != m.to ==>
                  h[s].color == g[s].color && (h[s].kind == King <==> g[s].kind == King))
  {
    hide Promoted, Moved;
    MovedFacts(g, m);
    PromotedFacts(Moved(if m.to in g then g - {g[m.to].square} else g, g[m.from], m.to));
  }

  /** What a move does to the board, square by square: the piece leaves its square and stands on the other,
      whatever stood there is gone, a white pawn on row 0 and a black one on row 7 is a queen, and nothing
      else changes. */
  lemma MoveExactly(g: Position, m: Move)
    requires Consistent(g) && NoPawnOnLastRow(g) && FairMove(g, m)
    ensures var p := g[m.from];
            var queens := p.kind == Pawn && ((p.color == White && m.to.row == 0) || (p.color == Black && m.to.row == 7));
            BoardAfter(g, m) == (g - {m.from})[m.to := Piece(if queens then Queen else p.kind, p.color, m.to)]
  {
    hide Moved;
    MovedFacts(g, m);
    var h := Moved(if m.to in g then g - {g[m.to].square} else g, g[m.from], m.to);
    PromotedExactly(h);
    hide Promoted, FairMove;
    var after := BoardAfter(g, m);
    assert after == Promoted(h);
    forall s | s in after && s != m.to
      ensures after[s] == g[s]
    {
      assert h[s] == g[s] && g[s].square == s;
    }
  }

  /** Promotion, by the rows. */
  lemma PromotedExactly(h: Position)
    requires Consistent(h)
    ensures Promoted(h).Keys == h.Keys
    ensures forall s :: s in h ==>
              Promoted(h)[s] == if h[s].kind == Pawn && ((h[s].color == White && s.row == 0) || (h[s].color == Black && s.row == 7))
                                then Piece(Queen, h[s].color, s) else h[s]
  {
  }

  lemma OwnAfter(g: Position, m: Move)
    requires Consistent(g) && FairMove(g, m)
    ensures var t, h := g[m.from].color, BoardAfter(g, m);
            && Own(h, t) == Own(g, t) - {m.from} + {m.to}
            && Own(h, Other(t)) == Own(g, Other(t)) - {m.to}
            && |Own(h, t)| == |Own(g, t)|
            && |Own(h, Other(t))| == |Own(g, Other(t))| - if m.to in g then 1 else 0
  {
    hide BoardAfter;
    BoardAfterFacts(g, m);
    var t, h := g[m.from].color, BoardAfter(g, m);
    assert Own(h, t) == Own(g, t) - {m.from} + {m.to};
    assert Own(h, Other(t)) == Own(g, Other(t)) - {m.to};
    assert m.from in Own(g, t) && m.to !in Own(g, t);
    assert m.to in g <==> m.to in Own(g, Other(t));
  }

  lemma KingsAfter(g: Position, m: Move)
    requires Consistent(g) && FairMove(g, m)
    ensures var t, h := g[m.from].color, BoardAfter(g, m);
            && |Kings(h, t)| == |Kings(g, t)|
            && Kings(h, Other(t)) == Kings(g, Other(t)) - {m.to}
            && (m.to in Kings(g, Other(t)) <==> TakesKing(g, m))
  {
    hide BoardAfter;
    BoardAfterFacts(g, m);
    var t, h := g[m.from].color, BoardAfter(g, m);
    if g[m.from].kind == King {
      assert Kings(h, t) == Kings(g, t) - {m.from} + {m.to};
    } else {
      assert Kings(h, t) == Kings(g, t);
    }
    assert Kings(h, Other(t)) == Kings(g, Other(t)) - {m.to};
  }

  lemma LostSnoc(captured: seq<Piece>, p: Piece, c: Color)
    ensures Lost(captured + [p], c) == Lost(captured, c) + if p.color == c then 1 else 0
  {
    assert (captured + [p])[..|captured|] == captured;
  }

  lemma PlayableIsFair(game: Game, m: Move)
    requires Consistent(game.board) && Playable(game.board, game.turn, game.columns, m)
    ensures FairMove(game.board, m) && game.board[m.from].color == game.turn
  {
    ReachMoves(game.board, game.board[m.from], m.to);
  }

  lemma PlayedSixteen(game: Game, m: Move)
    requires Inv(game) && FairMove(game.board, m)
    ensures SixteenEach(Played(game, m))
  {
    hide Own, BoardAfter, KingsRight, Lost;
    OwnAfter(game.board, m);
    var t := game.board[m.from].color;
    forall c
      ensures |Own(Played(game, m).board, c)| + Lost(Played(game, m).captured, c) == 16
    {
      assert c == t || c == Other(t);
      assert |Own(game.board, c)| + Lost(game.captured, c) == 16;
      if m.to in game.board {
        LostSnoc(game.captured, game.board[m.to], c);
      }
    }
  }

  lemma OneLess(k: set<Square>, s: Square)
    requires |k| == 1
    ensures if s in k then k - {s} == {} else k - {s} == k
  {
    if s in k {
      assert |k - {s}| == 0;
    }
  }

  lemma PlayedKings(game: Game, m: Move)
    requires Inv(game) && FairMove(game.board, m)
    requires game.board[m.from].color == game.turn && game.winner == None
    ensures KingsRight(Played(game, m))
  {
    hide Kings, BoardAfter, SixteenEach;
    KingsAfter(game.board, m);
    OneLess(Kings(game.board, Other(game.turn)), m.to);
  }

  lemma PlayedKeeps(game: Game, m: Move)
    requires Inv(game) && game.winner == None
    requires Playable(game.board, game.turn, game.columns, m)
    ensures Inv(Played(game, m))
  {
    hide Playable, SixteenEach, KingsRight, BoardAfter;
    PlayableIsFair(game, m);
    PlayedSixteen(game, m);
    PlayedKings(game, m);
    BoardAfterFacts(game.board, m);
  }

  // ---- The start ----

  function StartGame(columns: Columns): Game {
    Game(Start(), [], White, columns, None)
  }

  /** The first n squares of a row. */
  function RowSet(row: int, n: nat): (r: set<Square>)
    ensures |r| == n && forall s :: s in r <==> s.row == row && 0 <= s.column < n
  {
    if n == 0 then {} else RowSet(row, n - 1) + {Square(row, n - 1)}
  }

  lemma StartHolds(columns: Columns)
    ensures Inv(StartGame(columns))
  {
    StartSixteen();
    var g := Start();
    assert Kings(g, White) == {Square(7, 4)};
    assert Kings(g, Black) == {Square(0, 4)};
    assert forall c :: Lost([], c) == 0;
  }

  lemma StartSixteen()
    ensures forall c :: |Own(Start(), c)| == 16
  {
    forall c: Color
      ensures |Own(Start(), c)| == 16
    {
      TwoRows(c);
      TwoRowsCounted(if c == Black then 0 else 6);
    }
  }

  lemma TwoRows(c: Color)
    ensures var row := if c == Black then 0 else 6;
            Own(Start(), c) == RowSet(row, 8) + RowSet(row + 1, 8)
  {
    hide RowSet, Officer;
  }

  lemma TwoRowsCounted(row: int)
    ensures |RowSet(row, 8) + RowSet(row + 1, 8)| == 16
  {
    hide RowSet;
    assert RowSet(row, 8) * RowSet(row + 1, 8) == {};
  }

  /** At the start white can move whatever column is rolled. */
  lemma StartCanMove(columns: Columns, column: nat)
    requires column in columns && column < 8
    ensures SomePlayable(Start(), White, columns)
  {
    hide Clear, Straight, Diagonal, Distance, KnightReaches, Officer;
    var m := Move(Square(6, column), Square(5, column));
    assert PawnAdvances(Start(), Start()[m.from], m.to);
    assert Playable(Start(), White, columns, m);
  }

  /** From square a the opening move of a pawn of the colour leads to b: one or two rows on. */
  predicate PawnOpens(c: Color, a: Square, b: Square) {
    && a.column == b.column
    && if c == White then a.row == 6 && (b.row == 5 || b.row == 4) else a.row == 1 && (b.row == 2 || b.row == 3)
  }

  /** A knight opens from columns 1 and 6 of the last row to the third, one column aside. */
  predicate KnightOpens(c: Color, a: Square, b: Square) {
    && a.row == (if c == White then 7 else 0) && b.row == (if c == White then 5 else 2)
    && (a.column == 1 || a.column == 6) && (b.column == a.column - 1 || b.column == a.column + 1)
  }

  /** From the starting position a piece can reach exactly what the twenty opening moves of its colour say. */
  lemma OpeningMoves(c: Color, columns: Columns, m: Move)
    ensures Playable(Start(), c, columns, m)
       <==> OnBoard(m.from) && m.from.column in columns && (PawnOpens(c, m.from, m.to) || KnightOpens(c, m.from, m.to))
  {
    hide Reaches;
    var g := Start();
    StartSquares(c, m.from);
    if m.from in g && g[m.from].color == c {
      var p := g[m.from];
      if p.kind == Pawn { PawnOpening(p, m.to); }
      else if p.kind == Knight { KnightOpening(p, m.to); }
      else { OfficerStays(p, m.to); }
    }
  }

  /** Who stands where, as far as the opening moves need it. */
  lemma StartSquares(c: Color, s: Square)
    ensures s in Start() && Start()[s].color == c <==>
              OnBoard(s) && if c == White then s.row == 6 || s.row == 7 else s.row == 0 || s.row == 1
    ensures s in Start() ==> OnBoard(s) && Start()[s].square == s && (s.row < 2 || 6 <= s.row)
    ensures s in Start() ==> (Start()[s].kind == Pawn <==> s.row == 1 || s.row == 6)
    ensures s in Start() && Start()[s].kind == Knight <==> OnBoard(s) && (s.row == 0 || s.row == 7) && (s.column == 1 || s.column == 6)
  {
  }

  lemma PawnOpening(p: Piece, to: Square)
    requires p.square in Start() && Start()[p.square] == p && p.kind == Pawn
    ensures CanReach(Start(), p, to) <==> PawnOpens(p.color, p.square, to)
  {
    PawnSquares(Start(), p, to);
    hide Reaches, Officer;
  }

  lemma KnightOpening(p: Piece, to: Square)
    requires p.square in Start() && Start()[p.square] == p && p.kind == Knight
    ensures CanReach(Start(), p, to) <==> KnightOpens(p.color, p.square, to)
  {
    StartSquares(p.color, p.square);
    StartSquares(p.color, to);
    hide Start, Officer;
  }

  /** Every other piece stands behind its own pawns, between its own officers. */
  lemma OfficerStays(p: Piece, to: Square)
    requires p.square in Start() && Start()[p.square] == p && p.kind != Pawn && p.kind != Knight
    ensures !CanReach(Start(), p, to)
  {
    StartSquares(p.color, p.square);
    StartSquares(p.color, Toward(p.square, to, 1));
    StartSquares(p.color, to);
    hide Start, Officer;
  }

  // ---- Check, as the program sees it ----

  /** Check in chess: the king's square is attacked by the other colour. */
  ghost predicate InCheck(g: Position, color: Color) {
    exists k :: FirstKing(g, color, k) && Attacked(g, Other(color), k)
  }

  /** What the program takes for check is check exactly when his square is attacked by both colours or by none. */
  lemma CheckRightExactly(g: Position, color: Color, k: Square)
    requires Consistent(g) && FirstKing(g, color, k)
    ensures (LooksChecked(g, color) <==> InCheck(g, color)) <==> (Attacked(g, color, k) <==> Attacked(g, Other(color), k))
  {
    hide Attacked;
    OneFirstKing(g, color, k);
  }

  /** At the start both kings look mated, because the queen stands beside the king and he cannot move, although
      nothing attacks him. */
  lemma StartLooksMated(c: Color)
    ensures LooksChecked(Start(), c) && LooksMated(Start(), c) && !InCheck(Start(), c)
  {
    hide Attacked, FirstKing, CanReach;
    var row := if c == White then 7 else 0;
    var k := Square(row, 4);
    StartKing(c);
    QueenBeside(c);
    StartUnattacked(c);
    forall to
      ensures !CanReach(Start(), Start()[k], to)
    {
      OfficerStays(Start()[k], to);
    }
  }

  lemma StartKing(c: Color)
    ensures var k := Square(if c == White then 7 else 0, 4);
            && k in Start() && Start()[k] == Piece(King, c, k)
            && forall s :: FirstKing(Start(), c, s) <==> s == k
  {
    var k := Square(if c == White then 7 else 0, 4);
    assert forall s :: IsKing(Start(), c, s) <==> s == k;
    hide Start;
  }

  lemma QueenBeside(c: Color)
    ensures Attacked(Start(), c, Square(if c == White then 7 else 0, 4))
  {
    var row := if c == White then 7 else 0;
    var q := Square(row, 3);
    assert q in Start() && Start()[q] == Piece(Queen, c, q);
    hide Start;
    assert Attacks(Start(), Start()[q], Square(row, 4));
  }

  lemma StartUnattacked(c: Color)
    ensures !Attacked(Start(), Other(c), Square(if c == White then 7 else 0, 4))
  {
    var k := Square(if c == White then 7 else 0, 4);
    forall from | from in Start() && Start()[from].color == Other(c)
      ensures !Attacks(Start(), Start()[from], k)
    {
      StartSquares(Other(c), from);
      StartSquares(Other(c), Toward(from, k, 1));
      hide Start, Officer;
    }
  }

  /** A white king on the column of a black rook is in check, but does not look so. */
  lemma CheckIsMissed()
    ensures exists g :: Consistent(g) && InCheck(g, White) && !LooksChecked(g, White)
  {
    var k, r := Square(7, 4), Square(0, 4);
    var g: Position := map[k := Piece(King, White, k), r := Piece(Rook, Black, r)];
    assert FirstKing(g, White, k) && forall s :: FirstKing(g, White, s) ==> s == k;
    assert Attacks(g, g[r], k);
    assert Attacked(g, Other(White), k);
    assert InCheck(g, White);
    assert !Attacked(g, White, k);
    assert Consistent(g);
  }

  // ---- Runs ----

  /** A run interleaves accepted moves with changes of turn and rolls of columns. */
  datatype Action = Play(move: Move) | Turn(turn: Color, columns: Columns)

  ghost predicate Possible(game: Game, a: Action) {
    match a
    case Play(m) => game.winner == None && Playable(game.board, game.turn, game.columns, m)
    case Turn(turn, columns) => game.winner == None
  }

  function Apply(game: Game, a: Action): Game {
    match a
    case Play(m) => if m.from in game.board then Played(game, m) else game
    case Turn(turn, columns) => game.(turn := turn, columns := columns)
  }

  /** A played move changes the board as MoveExactly says, and with it only what was captured, and the winner
      if that was a king. A change of turn changes the turn and the columns. */
  lemma ActionsExactly(game: Game, m: Move, turn: Color, columns: Columns)
    requires Consistent(game.board) && NoPawnOnLastRow(game.board)
    requires Playable(game.board, game.turn, game.columns, m)
    ensures var g, after := game.board, Apply(game, Play(m));
            var p := g[m.from];
            && (after.board == (g - {m.from})[m.to := Piece(after.board[m.to].kind, game.turn, m.to)])
            && (after.board[m.to].kind == p.kind || (p.kind == Pawn && after.board[m.to].kind == Queen))
            && after.captured == game.captured + (if m.to in g then [g[m.to]] else [])
            && (after.winner == if m.to in g && g[m.to].kind == King then Some(game.turn) else game.winner)
            && after.turn == game.turn && after.columns == game.columns
    ensures Apply(game, Turn(turn, columns)) == Game(game.board, game.captured, turn, columns, game.winner)
  {
    PlayableIsFair(game, m);
    MoveExactly(game.board, m);
    hide BoardAfter, Consistent, NoPawnOnLastRow, Playable;
  }

  /** The actions lead from one game to the other. */
  ghost predicate Leads(game: Game, actions: seq<Action>, after: Game)
    decreases |actions|
  {
    if actions == [] then after == game
    else Possible(game, actions[0]) && Leads(Apply(game, actions[0]), actions[1..], after)
  }

  lemma TurnKeeps(game: Game, turn: Color, columns: Columns)
    requires Inv(game)
    ensures Inv(game.(turn := turn, columns := columns))
  {
    hide Own, Kings, Lost, Consistent, NoPawnOnLastRow;
  }

  lemma ApplyKeeps(game: Game, a: Action)
    requires Inv(game) && Possible(game, a)
    ensures Inv(Apply(game, a))
  {
    hide Inv, Playable, Played;
    match a
    case Play(m) => PlayedKeeps(game, m);
    case Turn(turn, columns) => TurnKeeps(game, turn, columns);
  }

  lemma {:induction false} LeadsKeeps(game: Game, actions: seq<Action>, after: Game)
    requires Inv(game) && Leads(game, actions, after)
    ensures Inv(after)
    decreases |actions|
  {
    hide Inv, Possible, Apply;
    if actions != [] {
      ApplyKeeps(game, actions[0]);
      LeadsKeeps(Apply(game, actions[0]), actions[1..], after);
    }
  }

  lemma {:induction false} LeadsThen(game: Game, first: seq<Action>, middle: Game, second: seq<Action>, after: Game)
    requires Leads(game, first, middle) && Leads(middle, second, after)
    ensures Leads(game, first + second, after)
    decreases |first|
  {
    hide Possible, Apply;
    if first == [] {
      assert first + second == second;
    } else {
      LeadsThen(Apply(game, first[0]), first[1..], middle, second, after);
      assert (first + second)[1..] == first[1..] + second;
    }
  }

  /** Whatever is rolled and whatever is played: each piece stands where it records, board and captured
      pieces are sixteen of each colour, no pawn rests on its last row, and the kings are there, once
      each, until a winner is set, after which exactly the loser's king is gone. */
  lemma EveryRunIsSafe(columns: Columns, actions: seq<Action>, after: Game)
    requires Leads(StartGame(columns), actions, after)
    ensures Consistent(after.board)
    ensures forall c :: |Own(after.board, c)| + Lost(after.captured, c) == 16
    ensures NoPawnOnLastRow(after.board)
    ensures after.winner == None ==> forall c :: |Kings(after.board, c)| == 1
    ensures after.winner.Some? ==>
              Kings(after.board, Other(after.winner.value)) == {} && |Kings(after.board, after.winner.value)| == 1
  {
    hide Leads, Own, Kings, Lost;
    StartHolds(columns);
    LeadsKeeps(StartGame(columns), actions, after);
  }

  /** A finished game stays as it is. */
  lemma WinnerIsFinal(game: Game, actions: seq<Action>, after: Game)
    requires game.winner.Some? && Leads(game, actions, after)
    ensures actions == [] && after == game
  {
  }
}
