/** Searches over the board: attacks, kings, lists of moves, and the move choice of the machine players. */
module ChessSearch {
  import opened ChessBoard
  import opened ChessMoves
  import opened Wrappers

  // ---- Attacks ----

  /** The board with a rook of the other colour put on s. */
  function Probed(g: Position, color: Color, s: Square): Position {
    g[s := Piece(Rook, Other(color), s)]
  }

  ghost predicate ReachedFrom(g: Position, color: Color, from: Square, s: Square) {
    from in g && g[from].color == color && CanReach(g, g[from], s)
  }

  /** A piece of the colour could take a piece of the other colour on s. */
  ghost predicate Attacked(g: Position, color: Color, s: Square) {
    exists from :: from != s && from in g && g[from].color == color && Attacks(g, g[from], s)
  }

  /** Like moving there, except that a pawn attacks only diagonally, whether or not a piece is there. */
  ghost predicate Attacks(g: Position, p: Piece, s: Square) {
    if p.kind == Pawn then
      s.row == p.square.row + Forward(p.color) && Abs(s.column - p.square.column) == 1
    else Reaches(g, p, s)
  }

  lemma TowardShort(a: Square, b: Square, n: nat)
    requires 0 < n < Distance(a, b)
    ensures Toward(a, b, n) != b
  {
  }

  lemma ClearProbed(g: Position, color: Color, a: Square, s: Square)
    ensures Clear(Probed(g, color, s), a, s) <==> Clear(g, a, s)
  {
    var h := Probed(g, color, s);
    forall n: nat | 0 < n < Distance(a, s)
      ensures Toward(a, s, n) in h <==> Toward(a, s, n) in g
    {
      TowardShort(a, s, n);
    }
  }

  lemma AttacksProbed(g: Position, color: Color, p: Piece, s: Square)
    requires OnBoard(s) && p.color == color
    ensures CanReach(Probed(g, color, s), p, s) <==> Attacks(g, p, s)
  {
    hide Clear, Straight, Diagonal, Distance, KnightReaches;
    ClearProbed(g, color, p.square, s);
  }

  /** Looking for a piece that reaches the probe finds exactly the attacks. */
  lemma ProbeFindsAttacks(g: Position, color: Color, s: Square)
    requires OnBoard(s)
    ensures Attacked(g, color, s) <==> exists from :: ReachedFrom(Probed(g, color, s), color, from, s)
  {
    hide CanReach, Attacks;
    var h := Probed(g, color, s);
    if Attacked(g, color, s) {
      var from :| from != s && from in g && g[from].color == color && Attacks(g, g[from], s);
      AttacksProbed(g, color, g[from], s);
      assert ReachedFrom(h, color, from, s);
    }
    if from :| ReachedFrom(h, color, from, s) {
      AttacksProbed(g, color, g[from], s);
    }
  }

  lemma ProbeUndone(g: Position, color: Color, s: Square)
    ensures Put(Probed(g, color, s), s, PieceAt(g, s)) == g
    ensures Consistent(g) && OnBoard(s) ==> Consistent(Probed(g, color, s))
    ensures Put(g, s, Some(Piece(Rook, Other(color), s))) == Probed(g, color, s)
  {
  }

  method Contains(squares: seq<Square>, s: Square) returns (found: bool)
    ensures found <==> s in squares
  {
    for i := 0 to |squares|
      invariant s !in squares[..i]
    {
      if squares[i] == s {
        return true;
      }
      assert squares[..i + 1] == squares[..i] + [squares[i]];
    }
    assert squares[..|squares|] == squares;
    found := false;
  }

  predicate Before(s: Square, row: int, column: int) {
    OnBoard(s) && (s.row < row || (s.row == row && s.column < column))
  }

  /** The probe is written to the board itself and taken back on both ways out. */
  method IsAttacked(board: Board, color: Color, s: Square) returns (attacked: bool)
    requires board.Valid() && OnBoard(s) && Consistent(board.View())
    modifies board.pieces
    ensures board.View() == old(board.View())
    ensures attacked <==> Attacked(board.View(), color, s)
  {
    hide CanReach, Attacked, Probed, Put;
    var oldPiece := board.At(s);
    ghost var g := board.View();
    ProbeUndone(g, color, s);
    board.Write(s, Some(Piece(Rook, Other(color), s)));
    ghost var h := board.View();
    ProbeFindsAttacks(g, color, s);
    for row := 0 to 8
      invariant board.View() == h
      invariant forall from :: Before(from, row, 0) ==> !ReachedFrom(h, color, from, s)
    {
      for column := 0 to 8
        invariant board.View() == h
        invariant forall from :: Before(from, row, column) ==> !ReachedFrom(h, color, from, s)
      {
        var at := Square(row, column);
        var piece := board.At(at);
        if piece.Some? && piece.value.color == color {
          var moves := CanMoveTo(board, piece.value);
          var found := Contains(moves, s);
          if found {
            assert ReachedFrom(h, color, at, s);
            board.Write(s, oldPiece);
            return true;
          }
        }
        assert !ReachedFrom(h, color, at, s);
      }
    }
    assert forall from :: ReachedFrom(h, color, from, s) ==> Before(from, 8, 0);
    board.Write(s, oldPiece);
    attacked := false;
  }

  // ---- Kings ----

  predicate IsKing(g: Position, color: Color, s: Square) {
    s in g && g[s].kind == King && g[s].color == color
  }

  /** The first king in reading order. */
  ghost predicate FirstKing(g: Position, color: Color, s: Square) {
    IsKing(g, color, s) && forall t :: IsKing(g, color, t) ==> !Before(t, s.row, s.column)
  }

  /** None where the program throws NoKingError. */
  method FindKing(board: Board, color: Color) returns (king: Option<Piece>)
    requires board.Valid()
    ensures match king
            case None => forall s :: !IsKing(board.View(), color, s)
            case Some(k) => exists s :: FirstKing(board.View(), color, s) && board.View()[s] == k
  {
    ghost var g := board.View();
    for row := 0 to 8
      invariant forall t :: IsKing(g, color, t) ==> !Before(t, row, 0)
    {
      for column := 0 to 8
        invariant forall t :: IsKing(g, color, t) ==> !Before(t, row, column)
      {
        var at := Square(row, column);
        var piece := board.At(at);
        if piece.Some? && piece.value.color == color && piece.value.kind == King {
          assert FirstKing(g, color, at);
          return piece;
        }
      }
    }
    king := None;
    assert forall t :: IsKing(g, color, t) ==> Before(t, 8, 0);
  }

  method IsInCheck(board: Board, color: Color) returns (check: bool)
    requires board.Valid() && Consistent(board.View())
    modifies board.pieces
    ensures board.View() == old(board.View())
    ensures check <==> LooksChecked(board.View(), color)
  {
    hide Attacked;
    var king := FindKing(board, color);
    if king == None {
      return false;
    }
    assert IsKing(board.View(), color, king.value.square);
    check := IsAttacked(board, color, king.value.square);
    OneFirstKing(board.View(), color, king.value.square);
  }

  lemma OneFirstKing(g: Position, color: Color, s: Square)
    requires FirstKing(g, color, s) && Consistent(g)
    ensures forall t :: FirstKing(g, color, t) ==> t == s
  {
  }

  /** What the program takes for check: a piece of the king's own colour, not of the other, attacks his square. */
  ghost predicate LooksChecked(g: Position, color: Color) {
    exists k :: FirstKing(g, color, k) && Attacked(g, color, k)
  }

  /** And for mate: that holds for him where he stands and on each square he can go to, or he is gone. */
  ghost predicate LooksMated(g: Position, color: Color) {
    forall k :: FirstKing(g, color, k) ==>
      Attacked(g, color, k) && forall to :: CanReach(g, g[k], to) ==> Attacked(Moved(g, g[k], to), color, to)
  }

  /** The king was moved to a square that no piece of his colour attacks. */
  ghost predicate KingMoved(g: Position, color: Color, h: Position) {
    exists k, to :: FirstKing(g, color, k) && CanReach(g, g[k], to) && h == Moved(g, g[k], to) && !Attacked(h, color, to)
  }

  /** When the search finds a square for the king, he is left there. */
  method IsCheckmated(board: Board, color: Color) returns (mate: bool)
    requires board.Valid() && Consistent(board.View())
    modifies board.pieces
    ensures Consistent(board.View())
    ensures mate <==> LooksMated(old(board.View()), color)
    ensures mate || !LooksChecked(old(board.View()), color) ==> board.View() == old(board.View())
    ensures !mate && LooksChecked(old(board.View()), color) ==> KingMoved(old(board.View()), color, board.View())
  {
    hide Attacked, CanReach, Moved, FirstKing;
    var king := FindKing(board, color);
    ghost var g := board.View();
    if king == None {
      NoFirstKing(g, color);
      return true;
    }
    TheKing(g, color, king.value);
    var attacked := IsAttacked(board, color, king.value.square);
    if !attacked {
      return false;
    }
    var oldBoard := new Board.Copy(board);
    var escapes := CanMoveTo(board, king.value);
    for i := 0 to |escapes|
      invariant board.View() == g && oldBoard.View() == g
      invariant forall j :: 0 <= j < i ==> Attacked(Moved(g, king.value, escapes[j]), color, escapes[j])
    {
      var to := escapes[i];
      assert to in escapes;
      EscapeOnBoard(g, king.value, to);
      MovedConsistent(g, king.value, to);
      var moved := board.MovePiece(king.value, to);
      attacked := IsAttacked(board, color, moved.square);
      if !attacked {
        return false;
      }
      board.Assign(oldBoard);
    }
    mate := true;
  }

  lemma TheKing(g: Position, color: Color, king: Piece)
    requires Consistent(g) && exists s :: FirstKing(g, color, s) && g[s] == king
    ensures OnBoard(king.square) && king.square in g && g[king.square] == king
    ensures forall t :: FirstKing(g, color, t) <==> t == king.square
  {
    var s :| FirstKing(g, color, s) && g[s] == king;
    OneFirstKing(g, color, s);
  }

  lemma NoFirstKing(g: Position, color: Color)
    requires forall s :: !IsKing(g, color, s)
    ensures forall t :: !FirstKing(g, color, t)
  {
  }

  lemma EscapeOnBoard(g: Position, p: Piece, to: Square)
    requires CanReach(g, p, to)
    ensures OnBoard(to)
  {
  }

  // ---- Lists of moves ----

  /** A move of a piece of the colour that starts in one of the columns. */
  ghost predicate Playable(g: Position, color: Color, columns: set<nat>, m: Move) {
    m.from in g && g[m.from].color == color && m.from.column in columns && CanReach(g, g[m.from], m.to)
  }

  ghost predicate SomePlayable(g: Position, color: Color, columns: set<nat>) {
    exists m :: Playable(g, color, columns, m)
  }

  const EVERY_COLUMN: set<nat> := {0, 1, 2, 3, 4, 5, 6, 7}

  /** All moves of one colour, in reading order of the squares they start from. */
  method AllMoves(board: Board, color: Color) returns (out: seq<Move>)
    requires board.Valid() && Consistent(board.View())
    ensures forall m :: m in out <==> Playable(board.View(), color, EVERY_COLUMN, m)
  {
    hide CanReach;
    out := [];
    ghost var g := board.View();
    for row := 0 to 8
      invariant forall m :: m in out <==> Playable(g, color, EVERY_COLUMN, m) && Before(m.from, row, 0)
    {
      for column := 0 to 8
        invariant forall m :: m in out <==> Playable(g, color, EVERY_COLUMN, m) && Before(m.from, row, column)
      {
        var at := Square(row, column);
        var moves := MovesFrom(board, at, color);
        out := out + moves;
      }
    }
  }

  method MovesFrom(board: Board, at: Square, color: Color) returns (out: seq<Move>)
    requires board.Valid() && Consistent(board.View())
    ensures forall m :: m in out <==>
              m.from == at && at in board.View() && board.View()[at].color == color
              && CanReach(board.View(), board.View()[at], m.to)
  {
    hide CanReach;
    out := [];
    var piece := board.At(at);
    if piece.Some? && piece.value.color == color {
      var squares := CanMoveTo(board, piece.value);
      for i := 0 to |squares|
        invariant forall m :: m in out <==> m.from == at && m.to in squares[..i]
      {
        out := out + [Move(piece.value.square, squares[i])];
        assert squares[..i + 1] == squares[..i] + [squares[i]];
      }
      assert squares[..|squares|] == squares;
    }
  }

  /** The moves of one colour that start in the rolled columns. */
  method GetPossibleMoves(board: Board, color: Color, columns: set<nat>) returns (out: seq<Move>)
    requires board.Valid() && Consistent(board.View())
    ensures forall m :: m in out <==> Playable(board.View(), color, columns, m)
  {
    hide CanReach;
    out := [];
    var rest := columns;
    ghost var g := board.View();
    while rest != {}
      invariant rest <= columns
      invariant forall m :: m in out <==> Playable(g, color, columns - rest, m)
      decreases |rest|
    {
      var column :| column in rest;
      rest := rest - {column};
      for row := 0 to 8
        invariant forall m :: m in out <==>
                    Playable(g, color, columns - rest, m) && (m.from.column == column ==> m.from.row < row)
      {
        var at := Square(row, column);
        var moves := MovesFrom(board, at, color);
        out := out + moves;
      }
    }
    assert columns - rest == columns;
  }

  /** Can the colour move a piece of the rolled columns? */
  method CanMove(board: Board, color: Color, columns: set<nat>) returns (can: bool)
    requires board.Valid() && Consistent(board.View())
    ensures can <==> SomePlayable(board.View(), color, columns)
  {
    hide CanReach;
    var rest := columns;
    ghost var g := board.View();
    while rest != {}
      invariant rest <= columns
      invariant forall m :: Playable(g, color, columns, m) ==> m.from.column in rest
      decreases |rest|
    {
      var column :| column in rest;
      for row := 0 to 8
        invariant forall m :: Playable(g, color, columns, m) ==>
                    m.from.column in rest && (m.from.column == column ==> row <= m.from.row)
      {
        var at := Square(row, column);
        var moves := MovesFrom(board, at, color);
        if moves != [] {
          assert moves[0] in moves && Playable(g, color, columns, moves[0]);
          return true;
        }
        assert forall m :: Playable(g, color, columns, m) && m.from == at ==> m in moves;
      }
      rest := rest - {column};
    }
    can := false;
  }

  // ---- Choosing a move ----

  datatype LabeledMove = LabeledMove(move: Move, captured: Option<Piece>, isInCheck: bool, isCheckmated: bool, isSelfInCheck: bool)

  /** What the labels of a move say. The last one is computed on the board as the search for mate has left it. */
  ghost predicate Labels(g: Position, turn: Color, l: LabeledMove)
    requires l.move.from in g
  {
    var after := Moved(g, g[l.move.from], l.move.to);
    && l.captured == PieceAt(g, l.move.to)
    && (l.isInCheck <==> LooksChecked(after, Other(turn)))
    && (l.isCheckmated <==> LooksMated(after, Other(turn)))
    && if l.isCheckmated || !l.isInCheck then l.isSelfInCheck <==> LooksChecked(after, turn)
       else exists h :: KingMoved(after, Other(turn), h) && (l.isSelfInCheck <==> LooksChecked(h, turn))
  }

  /** The labelled moves are exactly the playable ones. */
  ghost predicate AllLabeled(g: Position, turn: Color, columns: set<nat>, labeled: seq<LabeledMove>) {
    && (forall k :: 0 <= k < |labeled| ==>
          Playable(g, turn, columns, labeled[k].move) && Labels(g, turn, labeled[k]))
    && (forall m :: Playable(g, turn, columns, m) ==> exists k :: 0 <= k < |labeled| && labeled[k].move == m)
  }

  /** The first move that none behind it was superior to when it came. */
  function Best(labeled: seq<LabeledMove>, superior: (LabeledMove, LabeledMove) -> bool): (best: LabeledMove)
    requires labeled != []
    ensures best in labeled
  {
    var last := labeled[|labeled| - 1];
    if |labeled| == 1 then last
    else
      var best := Best(labeled[..|labeled| - 1], superior);
      if superior(best, last) then last else best
  }

  /** Every candidate is tried out on the live board, which is then restored. The comparison of two
      labelled moves is a parameter. None where the program throws because there is no move. */
  method ChooseMove(board: Board, turn: Color, columns: set<nat>, superior: (LabeledMove, LabeledMove) -> bool)
    returns (choice: Option<Move>, ghost labeled: seq<LabeledMove>)
    requires board.Valid() && Consistent(board.View())
    modifies board.pieces
    ensures board.View() == old(board.View())
    ensures AllLabeled(board.View(), turn, columns, labeled)
    ensures choice == if labeled == [] then None else Some(Best(labeled, superior).move)
    ensures choice.Some? <==> SomePlayable(board.View(), turn, columns)
    ensures choice.Some? ==> Playable(board.View(), turn, columns, choice.value)
  {
    hide CanReach, Attacked, Moved, Consistent, Labels, Best;
    ghost var g := board.View();
    var all := AllMoves(board, turn);
    var legal := InColumns(all, columns);
    PlayableInColumns(g, turn, columns);
    var oldBoard := new Board.Copy(board);
    var labels: seq<LabeledMove> := [];
    for i := 0 to |legal|
      invariant board.View() == g && oldBoard.View() == g
      invariant |labels| == i
      invariant forall k :: 0 <= k < i ==> labels[k].move == legal[k] && legal[k].from in g && Labels(g, turn, labels[k])
    {
      assert legal[i] in legal;
      var l := TryMove(board, turn, legal[i]);
      board.Assign(oldBoard);
      labels := labels + [l];
    }
    labeled := labels;
    EachLabeled(g, turn, columns, legal, labels);
    if labels == [] {
      assert forall m :: m !in legal;
      return None, labeled;
    }
    choice := PickBest(labels, superior);
    assert exists k :: 0 <= k < |labels| && labels[k] == Best(labels, superior);
  }

  lemma EachLabeled(g: Position, turn: Color, columns: set<nat>, legal: seq<Move>, labels: seq<LabeledMove>)
    requires forall m :: m in legal <==> Playable(g, turn, columns, m)
    requires |labels| == |legal|
    requires forall k :: 0 <= k < |labels| ==> labels[k].move == legal[k] && legal[k].from in g && Labels(g, turn, labels[k])
    ensures AllLabeled(g, turn, columns, labels)
  {
    hide Labels, CanReach;
    forall k | 0 <= k < |labels|
      ensures Playable(g, turn, columns, labels[k].move)
    {
      assert legal[k] in legal;
    }
    forall m | Playable(g, turn, columns, m)
      ensures exists k :: 0 <= k < |labels| && labels[k].move == m
    {
      var k :| 0 <= k < |legal| && legal[k] == m;
      assert labels[k].move == m;
    }
  }

  /** The loop over the labelled moves. */
  method PickBest(labels: seq<LabeledMove>, superior: (LabeledMove, LabeledMove) -> bool) returns (choice: Option<Move>)
    requires labels != []
    ensures choice == Some(Best(labels, superior).move)
  {
    var best := 0;
    for i := 1 to |labels|
      invariant 0 <= best < |labels|
      invariant labels[best] == Best(labels[..i], superior)
    {
      assert labels[..i + 1][..i] == labels[..i];
      if superior(labels[best], labels[i]) {
        best := i;
      }
    }
    assert labels[..|labels|] == labels;
    choice := Some(labels[best].move);
  }

  lemma PlayableInColumns(g: Position, color: Color, columns: set<nat>)
    requires Consistent(g)
    ensures forall m :: Playable(g, color, columns, m) <==> Playable(g, color, EVERY_COLUMN, m) && m.from.column in columns
  {
    hide CanReach;
  }

  method InColumns(moves: seq<Move>, columns: set<nat>) returns (kept: seq<Move>)
    ensures forall m :: m in kept <==> m in moves && m.from.column in columns
  {
    kept := [];
    for i := 0 to |moves|
      invariant forall m :: m in kept <==> m in moves[..i] && m.from.column in columns
    {
      if moves[i].from.column in columns {
        kept := kept + [moves[i]];
      }
      assert moves[..i + 1] == moves[..i] + [moves[i]];
    }
    assert moves[..|moves|] == moves;
  }

  /** Makes the move on the board and labels it; the board is left altered. */
  method TryMove(board: Board, turn: Color, move: Move) returns (l: LabeledMove)
    requires board.Valid() && Consistent(board.View())
    requires Playable(board.View(), turn, EVERY_COLUMN, move)
    modifies board.pieces
    ensures l.move == move && Labels(old(board.View()), turn, l)
  {
    hide CanReach, Attacked, Moved, FirstKing;
    var g := board.View();
    var captured := board.At(move.to);
    var piece := board.At(move.from);
    EscapeOnBoard(g, piece.value, move.to);
    MovedConsistent(g, piece.value, move.to);
    var moved := board.MovePiece(piece.value, move.to);
    var inCheck := IsInCheck(board, Other(turn));
    var mated := IsCheckmated(board, Other(turn));
    var selfInCheck := IsInCheck(board, turn);
    l := LabeledMove(move, captured, inCheck, mated, selfInCheck);
  }

  /** The player that picks at random: `random` is the number it drew. */
  method ChooseAtRandom(board: Board, turn: Color, columns: set<nat>, random: nat) returns (choice: Option<Move>)
    requires board.Valid() && Consistent(board.View())
    ensures choice.Some? <==> SomePlayable(board.View(), turn, columns)
    ensures choice.Some? ==> Playable(board.View(), turn, columns, choice.value)
  {
    hide CanReach;
    var possibilities := GetPossibleMoves(board, turn, columns);
    if possibilities == [] {
      assert forall m :: m !in possibilities;
      return None;
    }
    var index := random % |possibilities|;
    assert possibilities[index] in possibilities;
    choice := Some(possibilities[index]);
  }
}
