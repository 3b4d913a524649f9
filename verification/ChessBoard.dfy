/** Probability Chess: squares, pieces and the board they stand on. Black starts at the top (row 0). */
module ChessBoard {
  import opened Wrappers

  datatype Color = White | Black

  function Other(c: Color): Color {
    if c == White then Black else White
  }

  datatype Kind = Bishop | King | Knight | Pawn | Queen | Rook

  datatype Square = Square(row: int, column: int)

  predicate OnBoard(s: Square) {
    0 <= s.row < 8 && 0 <= s.column < 8
  }

  /** A piece records the square it stands on. */
  datatype Piece = Piece(kind: Kind, color: Color, square: Square)

  datatype Move = Move(from: Square, to: Square)

  /** The occupied squares. */
  type Position = map<Square, Piece>

  function AllSquares(): (all: set<Square>)
    ensures forall s :: s in all <==> OnBoard(s)
  {
    var all := set r, c | 0 <= r < 8 && 0 <= c < 8 :: Square(r, c);
    assert forall s: Square :: s == Square(s.row, s.column);
    all
  }

  function PieceAt(g: Position, s: Square): Option<Piece> {
    if s in g then Some(g[s]) else None
  }

  function Put(g: Position, s: Square, piece: Option<Piece>): Position {
    if piece.Some? then g[s := piece.value] else g - {s}
  }

  /** Every piece stands on the square it records. */
  ghost predicate Consistent(g: Position) {
    forall s :: s in g ==> OnBoard(s) && g[s].square == s
  }

  /** The piece is written to its new square before its recorded square is cleared. */
  function Moved(g: Position, piece: Piece, to: Square): Position {
    g[to := piece.(square := to)] - {piece.square}
  }

  lemma MovedConsistent(g: Position, piece: Piece, to: Square)
    requires Consistent(g) && OnBoard(to)
    ensures Consistent(Moved(g, piece, to))
  {
  }

  class Board {
    const pieces: array2<Option<Piece>>

    ghost predicate Valid() {
      pieces.Length0 == 8 && pieces.Length1 == 8
    }

    ghost function View(): (g: Position)
      requires Valid()
      reads pieces
      ensures forall s :: s in g ==> OnBoard(s)
    {
      map s | s in AllSquares() && pieces[s.row, s.column].Some? :: pieces[s.row, s.column].value
    }

    constructor ()
      ensures Valid() && fresh(pieces) && View() == map[]
    {
      pieces := new Option<Piece>[8, 8]((r, c) => None);
    }

    constructor Copy(other: Board)
      requires other.Valid()
      ensures Valid() && fresh(pieces) && View() == other.View()
    {
      pieces := new Option<Piece>[8, 8]((r, c) => None);
      new;
      Assign(other);
    }

    method At(s: Square) returns (piece: Option<Piece>)
      requires Valid()
      ensures piece == PieceAt(View(), s)
    {
      piece := if OnBoard(s) then pieces[s.row, s.column] else None;
    }

    method Write(s: Square, piece: Option<Piece>)
      requires Valid() && OnBoard(s)
      modifies pieces
      ensures View() == Put(old(View()), s, piece)
    {
      pieces[s.row, s.column] := piece;
      assert forall t :: OnBoard(t) && t != s ==> pieces[t.row, t.column] == old(pieces[t.row, t.column]);
    }

    /** Assignment copies cell by cell. */
    method Assign(other: Board)
      requires Valid() && other.Valid() && other.pieces != pieces
      modifies pieces
      ensures View() == other.View()
    {
      for row := 0 to 8
        invariant forall r, c :: 0 <= r < row && 0 <= c < 8 ==> pieces[r, c] == other.pieces[r, c]
      {
        for column := 0 to 8
          invariant forall r, c :: 0 <= r < row && 0 <= c < 8 ==> pieces[r, c] == other.pieces[r, c]
          invariant forall c :: 0 <= c < column ==> pieces[row, c] == other.pieces[row, c]
        {
          pieces[row, column] := other.pieces[row, column];
        }
      }
    }

    method Set(kind: Kind, color: Color, s: Square)
      requires Valid() && OnBoard(s)
      modifies pieces
      ensures View() == old(View())[s := Piece(kind, color, s)]
    {
      Write(s, Some(Piece(kind, color, s)));
    }

    method Erase(piece: Piece)
      requires Valid() && OnBoard(piece.square)
      modifies pieces
      ensures View() == old(View()) - {piece.square}
    {
      Write(piece.square, None);
    }

    method MovePiece(piece: Piece, to: Square) returns (moved: Piece)
      requires Valid() && OnBoard(piece.square) && OnBoard(to)
      modifies pieces
      ensures View() == Moved(old(View()), piece, to)
      ensures moved == piece.(square := to)
    {
      Write(to, Some(piece.(square := to)));
      Write(piece.square, None);
      moved := piece.(square := to);
    }

    method PlacePieces()
      requires Valid()
      modifies pieces
      ensures View() == Start()
    {
      for row := 0 to 8
        invariant forall r, c :: 0 <= r < row && 0 <= c < 8 ==> pieces[r, c] == None
      {
        for column := 0 to 8
          invariant forall r, c :: 0 <= r < row && 0 <= c < 8 ==> pieces[r, c] == None
          invariant forall c :: 0 <= c < column ==> pieces[row, c] == None
        {
          pieces[row, column] := None;
        }
      }
      PlaceOfficers(0, Black);
      PlaceOfficers(7, White);
      PlacePawns();
      assert forall s :: OnBoard(s) ==> pieces[s.row, s.column] == PieceAt(Start(), s);
    }

    method PlacePawns()
      requires Valid()
      modifies pieces
      ensures forall c :: 0 <= c < 8 ==> pieces[1, c] == Some(Piece(Pawn, Black, Square(1, c)))
      ensures forall c :: 0 <= c < 8 ==> pieces[6, c] == Some(Piece(Pawn, White, Square(6, c)))
      ensures forall r, c :: 0 <= r < 8 && 0 <= c < 8 && r != 1 && r != 6 ==> pieces[r, c] == old(pieces[r, c])
    {
      for column := 0 to 8
        invariant forall c :: 0 <= c < column ==> pieces[1, c] == Some(Piece(Pawn, Black, Square(1, c)))
        invariant forall c :: 0 <= c < column ==> pieces[6, c] == Some(Piece(Pawn, White, Square(6, c)))
        invariant forall r, c :: 0 <= r < 8 && 0 <= c < 8 && r != 1 && r != 6 ==> pieces[r, c] == old(pieces[r, c])
      {
        pieces[1, column] := Some(Piece(Pawn, Black, Square(1, column)));
        pieces[6, column] := Some(Piece(Pawn, White, Square(6, column)));
      }
    }

    method PlaceOfficers(row: int, color: Color)
      requires Valid() && 0 <= row < 8
      modifies pieces
      ensures forall c :: 0 <= c < 8 ==> pieces[row, c] == Some(Piece(Officer(c), color, Square(row, c)))
      ensures forall r, c :: 0 <= r < 8 && 0 <= c < 8 && r != row ==> pieces[r, c] == old(pieces[r, c])
    {
      pieces[row, 0] := Some(Piece(Rook, color, Square(row, 0)));
      pieces[row, 1] := Some(Piece(Knight, color, Square(row, 1)));
      pieces[row, 2] := Some(Piece(Bishop, color, Square(row, 2)));
      pieces[row, 3] := Some(Piece(Queen, color, Square(row, 3)));
      pieces[row, 4] := Some(Piece(King, color, Square(row, 4)));
      pieces[row, 5] := Some(Piece(Bishop, color, Square(row, 5)));
      pieces[row, 6] := Some(Piece(Knight, color, Square(row, 6)));
      pieces[row, 7] := Some(Piece(Rook, color, Square(row, 7)));
    }
  }

  function Officer(column: int): Kind {
    match column
    case 0 => Rook
    case 1 => Knight
    case 2 => Bishop
    case 3 => Queen
    case 4 => King
    case 5 => Bishop
    case 6 => Knight
    case _ => Rook
  }

  /** The starting position. */
  function Start(): Position {
    map s | s in AllSquares() && (s.row < 2 || 6 <= s.row) ::
      Piece(if s.row == 0 || s.row == 7 then Officer(s.column) else Pawn, if s.row < 2 then Black else White, s)
  }
}
