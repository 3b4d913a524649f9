/** Where a piece can move: the ray loops of the program against a definition by lines and gaps. */
module ChessMoves {
  import opened ChessBoard
  import opened Wrappers

  // ---- The definition ----

  function Abs(n: int): nat {
    if n < 0 then -n else n
  }

  function Max(a: nat, b: nat): nat {
    if a < b then b else a
  }

  /** n steps from a in the direction given by the signs of dr and dc. */
  function Step(a: Square, dr: int, dc: int, n: int): Square {
    Square(a.row + (if dr < 0 then -n else if dr == 0 then 0 else n),
           a.column + (if dc < 0 then -n else if dc == 0 then 0 else n))
  }

  function Distance(a: Square, b: Square): nat {
    Max(Abs(b.row - a.row), Abs(b.column - a.column))
  }

  /** Same row or same column. */
  predicate Straight(a: Square, b: Square) {
    a != b && (a.row == b.row || a.column == b.column)
  }

  predicate Diagonal(a: Square, b: Square) {
    a != b && Abs(b.row - a.row) == Abs(b.column - a.column)
  }

  /** n steps from a towards b. */
  function Toward(a: Square, b: Square, n: int): Square {
    Step(a, b.row - a.row, b.column - a.column, n)
  }

  /** The squares strictly between a and b are empty. */
  ghost predicate Clear(g: Position, a: Square, b: Square) {
    forall n :: 0 < n < Distance(a, b) ==> Toward(a, b, n) !in g
  }

  function Forward(c: Color): int {
    if c == Black then 1 else -1
  }

  /** The rank from which a pawn may advance two squares. */
  function PawnRow(c: Color): int {
    if c == Black then 1 else 6
  }

  ghost predicate PawnAdvances(g: Position, p: Piece, to: Square) {
    var dr := to.row - p.square.row;
    var next := Square(p.square.row + Forward(p.color), p.square.column);
    && to.column == p.square.column && to !in g
    && (dr == Forward(p.color)
        || (dr == 2 * Forward(p.color) && p.square.row == PawnRow(p.color) && next !in g))
  }

  ghost predicate PawnTakes(g: Position, p: Piece, to: Square) {
    to.row == p.square.row + Forward(p.color) && Abs(to.column - p.square.column) == 1 && to in g
  }

  ghost predicate PawnReaches(g: Position, p: Piece, to: Square) {
    PawnAdvances(g, p, to) || PawnTakes(g, p, to)
  }

  predicate KnightReaches(a: Square, b: Square) {
    var dr, dc := Abs(b.row - a.row), Abs(b.column - a.column);
    (dr == 1 && dc == 2) || (dr == 2 && dc == 1)
  }

  ghost predicate Reaches(g: Position, p: Piece, to: Square) {
    match p.kind
    case Bishop => Diagonal(p.square, to) && Clear(g, p.square, to)
    case King => Distance(p.square, to) == 1
    case Knight => KnightReaches(p.square, to)
    case Pawn => PawnReaches(g, p, to)
    case Queen => (Straight(p.square, to) || Diagonal(p.square, to)) && Clear(g, p.square, to)
    case Rook => Straight(p.square, to) && Clear(g, p.square, to)
  }

  /** What filter keeps: on the board and not held by an own piece. */
  predicate Allowed(g: Position, c: Color, to: Square) {
    OnBoard(to) && (to in g ==> g[to].color != c)
  }

  ghost predicate CanReach(g: Position, p: Piece, to: Square) {
    Reaches(g, p, to) && Allowed(g, p.color, to)
  }

  /** A list holding exactly the squares the piece can reach. */
  ghost predicate ExactlyReached(out: seq<Square>, g: Position, p: Piece) {
    forall s :: s in out <==> CanReach(g, p, s)
  }

  // ---- The loops ----

  /** s lies on the ray from a in direction (dr, dc). */
  predicate Along(a: Square, dr: int, dc: int, s: Square) {
    s != a && s == Step(a, dr, dc, Distance(a, s))
  }

  /** One of the ray loops: seven steps at most, up to and including the first occupied square. */
  method Ray(board: Board, from: Square, dr: int, dc: int) returns (out: seq<Square>)
    requires board.Valid() && OnBoard(from)
    requires -1 <= dr <= 1 && -1 <= dc <= 1 && (dr != 0 || dc != 0)
    ensures forall s :: s in out <==> OnBoard(s) && Along(from, dr, dc, s) && Clear(board.View(), from, s)
  {
    hide Step, Along, Distance, Clear;
    out := [];
    var next := from;
    ghost var g := board.View();
    StepZero(from, dr, dc);
    for i := 0 to 7
      invariant next == Step(from, dr, dc, i) && OnBoard(next)
      invariant forall n :: 0 < n <= i ==> Step(from, dr, dc, n) !in g
      invariant forall s :: s in out <==> Along(from, dr, dc, s) && Distance(from, s) <= i
    {
      next := Square(next.row + dr, next.column + dc);
      StepNext(from, dr, dc, i);
      if !OnBoard(next) {
        RayEnds(g, from, dr, dc, i, false);
        return;
      }
      out := out + [next];
      var piece := board.At(next);
      if piece.Some? {
        RayEnds(g, from, dr, dc, i + 1, true);
        return;
      }
    }
    StepNext(from, dr, dc, 7);
    RayOffBoard(from, dr, dc);
    RayEnds(g, from, dr, dc, 7, false);
  }

  lemma StepZero(from: Square, dr: int, dc: int)
    ensures Step(from, dr, dc, 0) == from
    ensures forall s :: Along(from, dr, dc, s) ==> 0 < Distance(from, s)
  {
  }

  lemma StepNext(from: Square, dr: int, dc: int, i: nat)
    requires -1 <= dr <= 1 && -1 <= dc <= 1 && (dr != 0 || dc != 0)
    ensures var last, next := Step(from, dr, dc, i), Step(from, dr, dc, i + 1);
            next == Square(last.row + dr, last.column + dc)
    ensures forall s :: Along(from, dr, dc, s) && Distance(from, s) == i + 1 <==> s == Step(from, dr, dc, i + 1)
  {
  }

  lemma RayOffBoard(from: Square, dr: int, dc: int)
    requires OnBoard(from) && (dr != 0 || dc != 0)
    ensures !OnBoard(Step(from, dr, dc, 8))
  {
  }

  /** The loop ended after n squares: the next one is off the board or the last one is occupied. */
  lemma RayEnds(g: Position, from: Square, dr: int, dc: int, n: nat, blocked: bool)
    requires OnBoard(from) && OnBoard(Step(from, dr, dc, n))
    requires forall k :: 0 < k < n ==> Step(from, dr, dc, k) !in g
    requires if blocked then 0 < n && Step(from, dr, dc, n) in g else !OnBoard(Step(from, dr, dc, n + 1))
    ensures forall s :: Along(from, dr, dc, s) && Distance(from, s) <= n
              <==> OnBoard(s) && Along(from, dr, dc, s) && Clear(g, from, s)
  {
    forall s | Along(from, dr, dc, s)
      ensures Distance(from, s) <= n <==> OnBoard(s) && Clear(g, from, s)
    {
      SameDirection(from, dr, dc, s);
      var k := Distance(from, s);
      if k <= n {
        StepBetween(from, dr, dc, k, n);
        assert Clear(g, from, s) by {
          hide Step, Distance, Along;
        }
      } else if blocked {
        assert Toward(from, s, n) in g;
      } else {
        StepBetween(from, dr, dc, n + 1, k);
      }
    }
  }

  /** On the way to a square of the board every square is on the board. */
  lemma StepBetween(from: Square, dr: int, dc: int, k: nat, n: nat)
    requires OnBoard(from) && k <= n
    ensures OnBoard(Step(from, dr, dc, n)) ==> OnBoard(Step(from, dr, dc, k))
  {
  }

  lemma SameDirection(from: Square, dr: int, dc: int, s: Square)
    requires Along(from, dr, dc, s)
    ensures forall n :: Toward(from, s, n) == Step(from, dr, dc, n)
  {
  }

  /** Removal in place while iterating over the list. */
  method Filter(board: Board, color: Color, squares: seq<Square>) returns (kept: seq<Square>)
    requires board.Valid()
    ensures forall s :: s in kept <==> s in squares && Allowed(board.View(), color, s)
  {
    kept := squares;
    var i := 0;
    ghost var g := board.View();
    while i < |kept|
      invariant i <= |kept|
      invariant forall s :: s in kept[..i] ==> Allowed(g, color, s)
      invariant forall s :: s in kept ==> s in squares
      invariant forall s :: s in squares && Allowed(g, color, s) ==> s in kept
      decreases |kept| - i
    {
      var at := kept[i];
      var other := board.At(at);
      if !OnBoard(at) || (other.Some? && other.value.color == color) {
        Removed(kept, i);
        kept := kept[..i] + kept[i + 1..];
      } else {
        assert kept[..i + 1] == kept[..i] + [at];
        i := i + 1;
      }
    }
    assert kept[..i] == kept;
  }

  lemma Removed(list: seq<Square>, i: nat)
    requires i < |list|
    ensures (list[..i] + list[i + 1..])[..i] == list[..i]
    ensures forall s :: s in list <==> s in list[..i] + list[i + 1..] || s == list[i]
  {
    assert list == list[..i] + [list[i]] + list[i + 1..];
  }

  method BishopMoves(board: Board, p: Piece) returns (out: seq<Square>)
    requires board.Valid() && OnBoard(p.square) && p.kind == Bishop
    ensures ExactlyReached(out, board.View(), p)
  {
    var a := Ray(board, p.square, 1, 1);
    var b := Ray(board, p.square, 1, -1);
    var c := Ray(board, p.square, -1, -1);
    var d := Ray(board, p.square, -1, 1);
    out := Filter(board, p.color, a + b + c + d);
    DiagonalRays(p.square);
    hide Along, Clear, Diagonal;
  }

  method RookMoves(board: Board, p: Piece) returns (out: seq<Square>)
    requires board.Valid() && OnBoard(p.square) && p.kind == Rook
    ensures ExactlyReached(out, board.View(), p)
  {
    var a := Ray(board, p.square, -1, 0);
    var b := Ray(board, p.square, 1, 0);
    var c := Ray(board, p.square, 0, -1);
    var d := Ray(board, p.square, 0, 1);
    out := Filter(board, p.color, a + b + c + d);
    StraightRays(p.square);
    hide Along, Clear, Straight;
  }

  method QueenMoves(board: Board, p: Piece) returns (out: seq<Square>)
    requires board.Valid() && OnBoard(p.square) && p.kind == Queen
    ensures ExactlyReached(out, board.View(), p)
  {
    var a := Ray(board, p.square, 1, 1);
    var b := Ray(board, p.square, 1, -1);
    var c := Ray(board, p.square, -1, -1);
    var d := Ray(board, p.square, -1, 1);
    var e := Ray(board, p.square, -1, 0);
    var f := Ray(board, p.square, 1, 0);
    var g := Ray(board, p.square, 0, -1);
    var h := Ray(board, p.square, 0, 1);
    out := Filter(board, p.color, a + b + c + d + e + f + g + h);
    DiagonalRays(p.square);
    StraightRays(p.square);
    hide Along, Clear, Diagonal, Straight;
  }

  /** The four diagonal rays are the diagonals. */
  lemma DiagonalRays(a: Square)
    ensures forall s :: Diagonal(a, s) <==>
              Along(a, 1, 1, s) || Along(a, 1, -1, s) || Along(a, -1, -1, s) || Along(a, -1, 1, s)
  {
  }

  lemma StraightRays(a: Square)
    ensures forall s :: Straight(a, s) <==>
              Along(a, -1, 0, s) || Along(a, 1, 0, s) || Along(a, 0, -1, s) || Along(a, 0, 1, s)
  {
  }

  function Offset(s: Square, row: int, column: int): Square {
    Square(s.row + row, s.column + column)
  }

  method KnightMoves(board: Board, p: Piece) returns (out: seq<Square>)
    requires board.Valid() && p.kind == Knight
    ensures ExactlyReached(out, board.View(), p)
  {
    var s := p.square;
    out := [Offset(s, -2, -1), Offset(s, -2, 1), Offset(s, -1, 2), Offset(s, 1, 2),
            Offset(s, 2, 1), Offset(s, 2, -1), Offset(s, 1, -2), Offset(s, -1, -2)];
    assert forall t :: t in out <==> KnightReaches(s, t);
    out := Filter(board, p.color, out);
  }

  method KingMoves(board: Board, p: Piece) returns (out: seq<Square>)
    requires board.Valid() && p.kind == King
    ensures ExactlyReached(out, board.View(), p)
  {
    var s := p.square;
    out := [Offset(s, -1, 0), Offset(s, -1, 1), Offset(s, 0, 1), Offset(s, 1, 1),
            Offset(s, 1, 0), Offset(s, 1, -1), Offset(s, 0, -1), Offset(s, -1, -1)];
    assert forall t :: t in out <==> Distance(s, t) == 1;
    out := Filter(board, p.color, out);
  }

  method PawnSteps(board: Board, p: Piece) returns (out: seq<Square>)
    requires board.Valid()
    ensures forall t :: t in out <==> PawnAdvances(board.View(), p, t)
  {
    out := [];
    var step := if p.color == Black then 1 else -1;
    var next := Offset(p.square, step, 0);
    var there := board.At(next);
    if there == None {
      out := out + [next];
      if (p.square.row == 1 && p.color == Black) || (p.square.row == 6 && p.color == White) {
        var ahead := Offset(next, step, 0);
        there := board.At(ahead);
        if there == None {
          out := out + [ahead];
        }
      }
    }
  }

  method PawnMoves(board: Board, p: Piece) returns (out: seq<Square>)
    requires board.Valid() && p.kind == Pawn
    ensures ExactlyReached(out, board.View(), p)
  {
    hide PawnAdvances, PawnTakes, Allowed, Clear, Diagonal, Straight, Distance, KnightReaches;
    ghost var g := board.View();
    var advances := PawnSteps(board, p);
    var next := Offset(p.square, if p.color == Black then 1 else -1, -1);
    var left := Occupied(board, next);
    next := Offset(next, 0, 2);
    var right := Occupied(board, next);
    Takes(g, p);
    out := Filter(board, p.color, advances + left + right);
  }

  method Occupied(board: Board, s: Square) returns (out: seq<Square>)
    requires board.Valid()
    ensures out == if s in board.View() then [s] else []
  {
    out := [];
    var there := board.At(s);
    if there.Some? {
      out := out + [s];
    }
  }

  lemma Takes(g: Position, p: Piece)
    ensures var left, right := Offset(p.square, Forward(p.color), -1), Offset(p.square, Forward(p.color), 1);
            forall t :: PawnTakes(g, p, t) <==> t in g && (t == left || t == right)
  {
  }

  method CanMoveTo(board: Board, p: Piece) returns (out: seq<Square>)
    requires board.Valid() && OnBoard(p.square)
    ensures ExactlyReached(out, board.View(), p)
  {
    hide ExactlyReached;
    match p.kind
    case Bishop => out := BishopMoves(board, p);
    case King => out := KingMoves(board, p);
    case Knight => out := KnightMoves(board, p);
    case Pawn => out := PawnMoves(board, p);
    case Queen => out := QueenMoves(board, p);
    case Rook => out := RookMoves(board, p);
  }

  /** A queen reaches what a rook or a bishop in its place would reach. */
  lemma QueenIsRookAndBishop(g: Position, p: Piece, to: Square)
    requires p.kind == Queen
    ensures CanReach(g, p, to) <==> CanReach(g, p.(kind := Rook), to) || CanReach(g, p.(kind := Bishop), to)
    ensures !(CanReach(g, p.(kind := Rook), to) && CanReach(g, p.(kind := Bishop), to))
  {
  }

  /** No piece can stay where it is or leave the board, and seven steps are enough for every ray. */
  lemma ReachMoves(g: Position, p: Piece, to: Square)
    requires CanReach(g, p, to) && OnBoard(p.square)
    ensures to != p.square && OnBoard(to) && 1 <= Distance(p.square, to) <= 7
  {
  }

  // ---- The pieces, by rows and columns ----

  predicate Between(a: int, n: int, b: int) {
    a < n < b || b < n < a
  }

  /** b is in the row of a and no piece of that row is between; the same for columns and both diagonals. */
  ghost predicate FreeRow(g: Position, a: Square, b: Square) {
    b.row == a.row && forall s :: s in g && s.row == a.row ==> !Between(a.column, s.column, b.column)
  }

  ghost predicate FreeColumn(g: Position, a: Square, b: Square) {
    b.column == a.column && forall s :: s in g && s.column == a.column ==> !Between(a.row, s.row, b.row)
  }

  ghost predicate FreeFalling(g: Position, a: Square, b: Square) {
    && b.row - b.column == a.row - a.column
    && forall s :: s in g && s.row - s.column == a.row - a.column ==> !Between(a.row, s.row, b.row)
  }

  ghost predicate FreeRising(g: Position, a: Square, b: Square) {
    && b.row + b.column == a.row + a.column
    && forall s :: s in g && s.row + s.column == a.row + a.column ==> !Between(a.row, s.row, b.row)
  }

  lemma RowClear(g: Position, a: Square, b: Square)
    requires a != b && b.row == a.row
    ensures Clear(g, a, b) <==> FreeRow(g, a, b)
  {
    forall s: Square | s.row == a.row && Between(a.column, s.column, b.column)
      ensures s == Toward(a, b, Distance(a, s)) && 0 < Distance(a, s) < Distance(a, b)
    {
    }
  }

  lemma ColumnClear(g: Position, a: Square, b: Square)
    requires a != b && b.column == a.column
    ensures Clear(g, a, b) <==> FreeColumn(g, a, b)
  {
    forall s: Square | s.column == a.column && Between(a.row, s.row, b.row)
      ensures s == Toward(a, b, Distance(a, s)) && 0 < Distance(a, s) < Distance(a, b)
    {
    }
  }

  lemma FallingClear(g: Position, a: Square, b: Square)
    requires a != b && b.row - b.column == a.row - a.column
    ensures Clear(g, a, b) <==> FreeFalling(g, a, b)
  {
    forall s: Square | s.row - s.column == a.row - a.column && Between(a.row, s.row, b.row)
      ensures s == Toward(a, b, Distance(a, s)) && 0 < Distance(a, s) < Distance(a, b)
    {
    }
  }

  lemma RisingClear(g: Position, a: Square, b: Square)
    requires a != b && b.row + b.column == a.row + a.column
    ensures Clear(g, a, b) <==> FreeRising(g, a, b)
  {
    forall s: Square | s.row + s.column == a.row + a.column && Between(a.row, s.row, b.row)
      ensures s == Toward(a, b, Distance(a, s)) && 0 < Distance(a, s) < Distance(a, b)
    {
    }
  }

  /** A rook goes along its row or its column. */
  lemma RookSquares(g: Position, p: Piece, to: Square)
    requires p.kind == Rook
    ensures Reaches(g, p, to) <==> to != p.square && (FreeRow(g, p.square, to) || FreeColumn(g, p.square, to))
  {
    hide Clear, Distance, Toward;
    if to != p.square && to.row == p.square.row { RowClear(g, p.square, to); }
    if to != p.square && to.column == p.square.column { ColumnClear(g, p.square, to); }
  }

  /** A bishop goes along the squares of equal difference, or of equal sum, of row and column. */
  lemma BishopSquares(g: Position, p: Piece, to: Square)
    requires p.kind == Bishop
    ensures Reaches(g, p, to) <==> to != p.square && (FreeFalling(g, p.square, to) || FreeRising(g, p.square, to))
  {
    hide Clear, Distance, Toward;
    if to != p.square && to.row - to.column == p.square.row - p.square.column { FallingClear(g, p.square, to); }
    if to != p.square && to.row + to.column == p.square.row + p.square.column { RisingClear(g, p.square, to); }
  }

  lemma KingSquares(g: Position, p: Piece, to: Square)
    requires p.kind == King
    ensures Reaches(g, p, to) <==>
              to != p.square && -1 <= to.row - p.square.row <= 1 && -1 <= to.column - p.square.column <= 1
  {
  }

  /** A knight's squares are those as far away as the square root of five. */
  lemma KnightSquares(g: Position, p: Piece, to: Square)
    requires p.kind == Knight
    ensures var dr, dc := to.row - p.square.row, to.column - p.square.column;
            Reaches(g, p, to) <==> dr * dr + dc * dc == 5
  {
    var dr, dc := to.row - p.square.row, to.column - p.square.column;
    SquareOf(dr);
    SquareOf(dc);
  }

  lemma SquareOf(n: int)
    ensures n * n == Abs(n) * Abs(n)
    ensures 3 <= Abs(n) ==> 9 <= n * n
    ensures 0 <= n * n
  {
  }

  /** White pawns go towards row 0 and may go two rows from row 6, black ones towards row 7, from row 1. */
  lemma PawnSquares(g: Position, p: Piece, to: Square)
    requires p.kind == Pawn
    ensures var r, c := p.square.row, p.square.column;
            var one, two, from := if p.color == White then r - 1 else r + 1, if p.color == White then r - 2 else r + 2,
                                  if p.color == White then 6 else 1;
            Reaches(g, p, to) <==>
              || (to == Square(one, c) && to !in g)
              || (to == Square(two, c) && r == from && to !in g && Square(one, c) !in g)
              || (to in g && (to == Square(one, c - 1) || to == Square(one, c + 1)))
  {
  }
}
