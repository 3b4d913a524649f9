/** Printing and loading the placement field of section 16.1 of the PGN specification. */
module ChessFen {
  import opened ChessBoard
  import opened ChessRules
  import opened Split
  import opened Wrappers

  function Letter(p: Piece): char {
    match (p.kind, p.color)
    case (Bishop, White) => 'B'
    case (Bishop, Black) => 'b'
    case (King, White) => 'K'
    case (King, Black) => 'k'
    case (Knight, White) => 'N'
    case (Knight, Black) => 'n'
    case (Pawn, White) => 'P'
    case (Pawn, Black) => 'p'
    case (Queen, White) => 'Q'
    case (Queen, Black) => 'q'
    case (Rook, White) => 'R'
    case (Rook, Black) => 'r'
  }

  /** How many squares in a row are empty from here on. */
  function Blanks(g: Position, row: int, column: int): (n: nat)
    ensures column <= 8 ==> column + n <= 8
    ensures forall c :: column <= c < column + n ==> Square(row, c) !in g
    decreases 8 - column
  {
    if column < 8 && Square(row, column) !in g then 1 + Blanks(g, row, column + 1) else 0
  }

  function Digit(n: nat): char
    requires n < 10
  {
    ('0' as int + n) as char
  }

  /** The text of a row from a column on. */
  function RowText(g: Position, row: int, column: nat): string
    decreases 8 - column
  {
    if 8 <= column then ""
    else if Square(row, column) in g then [Letter(g[Square(row, column)])] + RowText(g, row, column + 1)
    else
      var n := Blanks(g, row, column);
      [Digit(n)] + RowText(g, row, column + n)
  }

  function Rows(g: Position, count: nat): (rows: seq<string>)
    ensures |rows| == count
  {
    if count == 0 then [] else Rows(g, count - 1) + [RowText(g, count - 1, 0)]
  }

  lemma {:induction false} RowsAt(g: Position, count: nat)
    ensures forall r :: 0 <= r < count ==> Rows(g, count)[r] == RowText(g, r, 0)
  {
    hide RowText;
    if 0 < count {
      RowsAt(g, count - 1);
    }
  }

  function Placement(g: Position): string {
    Join(Rows(g, 8), "/")
  }

  /** The other fields: castling and en passant are never available, and the clocks are fixed. */
  function Suffix(color: Color): string {
    " " + (if color == White then "w" else "b") + " - - 0 1"
  }

  // ---- Loading ----

  /** Why loading stopped: a character that is neither a digit nor a piece, or a piece off the board. */
  datatype Problem = BadCharacter | OffTheBoard

  datatype Load = Load(board: Position, problem: Option<Problem>)

  function ReadLetter(c: char): Option<(Kind, Color)> {
    match c
    case 'B' => Some((Bishop, White))
    case 'b' => Some((Bishop, Black))
    case 'K' => Some((King, White))
    case 'k' => Some((King, Black))
    case 'N' => Some((Knight, White))
    case 'n' => Some((Knight, Black))
    case 'P' => Some((Pawn, White))
    case 'p' => Some((Pawn, Black))
    case 'Q' => Some((Queen, White))
    case 'q' => Some((Queen, Black))
    case 'R' => Some((Rook, White))
    case 'r' => Some((Rook, Black))
    case _ => None
  }

  function LoadRow(g: Position, row: int, column: int, text: string): Load
    decreases |text|
  {
    if text == "" then Load(g, None)
    else if '0' <= text[0] <= '9' then LoadRow(g, row, column + (text[0] as int - '0' as int), text[1..])
    else
      var piece := ReadLetter(text[0]);
      var s := Square(row, column);
      if piece == None then Load(g, Some(BadCharacter))
      else if !OnBoard(s) then Load(g, Some(OffTheBoard))
      else LoadRow(g[s := Piece(piece.value.0, piece.value.1, s)], row, column + 1, text[1..])
  }

  function LoadRows(g: Position, row: int, rows: seq<string>): Load
    decreases |rows|
  {
    if rows == [] then Load(g, None)
    else
      var l := LoadRow(g, row, 0, rows[0]);
      if l.problem.Some? then l else LoadRows(l.board, row + 1, rows[1..])
  }

  function Loaded(g: Position, fen: string): Load {
    LoadRows(g, 0, SplitOf(fen, "/", false))
  }

  // ---- The methods ----

  method PrintRow(board: Board, row: int) returns (out: string)
    requires board.Valid() && 0 <= row < 8
    ensures out == RowText(board.View(), row, 0)
  {
    hide RowText, Blanks, Letter;
    out := "";
    ghost var g := board.View();
    ghost var all := RowText(g, row, 0);
    var column := 0;
    while column < 8
      invariant 0 <= column <= 8
      invariant all == out + RowText(g, row, column)
    {
      RowTextNext(g, row, column);
      var piece := board.At(Square(row, column));
      if piece.Some? {
        Append(out, [Letter(piece.value)], RowText(g, row, column + 1));
        out := out + [Letter(piece.value)];
      } else {
        var blanks := CountBlanks(board, row, column);
        Append(out, [Digit(blanks)], RowText(g, row, column + blanks));
        column := column + blanks - 1;
        out := out + [Digit(blanks)];
      }
      column := column + 1;
    }
    RowTextNext(g, row, 8);
  }

  lemma RowTextNext(g: Position, row: int, column: nat)
    requires column <= 8
    ensures RowText(g, row, column)
         == if column == 8 then ""
            else if Square(row, column) in g then [Letter(g[Square(row, column)])] + RowText(g, row, column + 1)
            else [Digit(Blanks(g, row, column))] + RowText(g, row, column + Blanks(g, row, column))
  {
  }

  method CountBlanks(board: Board, row: int, column: nat) returns (blanks: nat)
    requires board.Valid() && 0 <= row < 8 && column < 8 && Square(row, column) !in board.View()
    ensures 1 <= blanks == Blanks(board.View(), row, column)
  {
    ghost var g := board.View();
    var i := 1;
    blanks := 1;
    var next := board.At(Square(row, column + i));
    while column + i < 8 && next == None
      invariant i == blanks && column + i <= 8
      invariant next == PieceAt(g, Square(row, column + i))
      invariant Blanks(g, row, column) == i + Blanks(g, row, column + i)
    {
      blanks := blanks + 1;
      i := i + 1;
      next := board.At(Square(row, column + i));
    }
  }

  lemma Append(out: string, next: string, rest: string)
    ensures out + (next + rest) == out + next + rest
  {
  }

  method ToFen(board: Board, color: Color) returns (out: string)
    requires board.Valid()
    ensures out == Placement(board.View()) + Suffix(color)
  {
    out := "";
    ghost var g := board.View();
    for row := 0 to 8
      invariant row == 0 ==> out == ""
      invariant 0 < row ==> out == Join(Rows(g, row), "/")
    {
      if 0 < row {
        out := out + "/";
        JoinSnoc(Rows(g, row), RowText(g, row, 0), "/");
      }
      var text := PrintRow(board, row);
      out := out + text;
      assert Rows(g, row + 1) == Rows(g, row) + [text];
      assert row == 0 ==> Rows(g, 1) == [text];
    }
    out := out + Suffix(color);
  }

  /** Stops, like the program, with what was placed before the problem. */
  method ReadRow(board: Board, row: int, text: string) returns (problem: Option<Problem>)
    requires board.Valid()
    modifies board.pieces
    ensures Load(board.View(), problem) == LoadRow(old(board.View()), row, 0, text)
  {
    var column := 0;
    ghost var all := LoadRow(board.View(), row, 0, text);
    for i := 0 to |text|
      invariant all == LoadRow(board.View(), row, column, text[i..])
    {
      var c := text[i];
      assert text[i..][1..] == text[i + 1..];
      if '0' <= c <= '9' {
        column := column + (c as int - '0' as int);
      } else {
        var piece := ReadLetter(c);
        if piece == None {
          return Some(BadCharacter);
        }
        if !OnBoard(Square(row, column)) {
          return Some(OffTheBoard);
        }
        board.Set(piece.value.0, piece.value.1, Square(row, column));
        column := column + 1;
      }
    }
    problem := None;
  }

  method LoadFen(board: Board, fen: string) returns (problem: Option<Problem>)
    requires board.Valid()
    modifies board.pieces
    ensures Load(board.View(), problem) == Loaded(old(board.View()), fen)
  {
    hide LoadRow, SplitOf;
    var rows := Split.Split(fen, "/", false);
    ghost var all := Loaded(board.View(), fen);
    for row := 0 to |rows|
      invariant all == LoadRows(board.View(), row, rows[row..])
    {
      assert rows[row..][1..] == rows[row + 1..];
      problem := ReadRow(board, row, rows[row]);
      if problem.Some? {
        return;
      }
    }
    problem := None;
  }

  // ---- Round trip ----

  predicate Earlier(s: Square, row: int, column: int) {
    s.row < row || (s.row == row && s.column < column)
  }

  /** The pieces before a place in reading order. */
  function Part(g: Position, row: int, column: int): Position {
    map s | s in g && Earlier(s, row, column) :: g[s]
  }

  lemma LetterRead(p: Piece)
    ensures ReadLetter(Letter(p)) == Some((p.kind, p.color))
    ensures !('0' <= Letter(p) <= '9') && Letter(p) != '/'
  {
  }

  lemma PartNext(g: Position, row: int, column: int)
    requires Consistent(g)
    ensures var s := Square(row, column);
            Part(g, row, column + 1) == if s in g then Part(g, row, column)[s := g[s]] else Part(g, row, column)
  {
  }

  lemma {:induction false} PartBlank(g: Position, row: int, column: int, n: nat)
    requires forall c :: column <= c < column + n ==> Square(row, c) !in g
    ensures Part(g, row, column + n) == Part(g, row, column)
  {
    forall s
      ensures s in g && Earlier(s, row, column + n) <==> s in g && Earlier(s, row, column)
    {
      assert s == Square(s.row, s.column);
    }
  }

  lemma PartWholeRow(g: Position, row: int)
    requires Consistent(g)
    ensures Part(g, row, 8) == Part(g, row + 1, 0)
  {
  }

  /** Loading the text of a row, with some more text behind it. */
  lemma {:induction false} RowLoaded(g: Position, row: int, column: nat, rest: string)
    requires Consistent(g) && 0 <= row < 8 && column <= 8
    ensures LoadRow(Part(g, row, column), row, column, RowText(g, row, column) + rest)
         == LoadRow(Part(g, row, 8), row, 8, rest)
    decreases 8 - column
  {
    hide Part, Letter, ReadLetter, Blanks, RowText;
    var text := RowText(g, row, column);
    RowTextNext(g, row, column);
    if column == 8 {
      assert text + rest == rest;
    } else {
      assert (text + rest)[1..] == text[1..] + rest;
      if Square(row, column) in g {
        var p := g[Square(row, column)];
        LetterRead(p);
        PartNext(g, row, column);
        RowLoaded(g, row, column + 1, rest);
        assert text[1..] == RowText(g, row, column + 1);
      } else {
        var n := Blanks(g, row, column);
        BlanksPositive(g, row, column);
        PartBlank(g, row, column, n);
        RowLoaded(g, row, column + n, rest);
        assert text[1..] == RowText(g, row, column + n);
      }
    }
  }

  lemma BlanksPositive(g: Position, row: int, column: int)
    requires column < 8 && Square(row, column) !in g
    ensures 0 < Blanks(g, row, column)
  {
  }

  lemma RowLoadedWhole(g: Position, row: int)
    requires Consistent(g) && 0 <= row < 8
    ensures LoadRow(Part(g, row, 0), row, 0, RowText(g, row, 0)) == Load(Part(g, row + 1, 0), None)
  {
    hide Part, RowText;
    RowLoaded(g, row, 0, "");
    assert RowText(g, row, 0) + "" == RowText(g, row, 0);
    PartWholeRow(g, row);
  }

  lemma {:induction false} RowsLoaded(g: Position, row: nat, rows: seq<string>)
    requires Consistent(g) && row <= |rows| == 8
    requires forall r :: 0 <= r < 7 ==> rows[r] == RowText(g, r, 0)
    requires LoadRow(Part(g, 7, 0), 7, 0, rows[7]).board == Part(g, 8, 0)
    ensures var last := LoadRow(Part(g, 7, 0), 7, 0, rows[7]).problem;
            LoadRows(Part(g, row, 0), row, rows[row..]) == Load(Part(g, 8, 0), if row < 8 then last else None)
    decreases 8 - row
  {
    hide Part, RowText, LoadRow;
    if row < 8 {
      assert rows[row..][1..] == rows[row + 1..];
      RowsLoaded(g, row + 1, rows);
      if row < 7 {
        RowLoadedWhole(g, row);
      }
    }
  }

  lemma PartEnds(g: Position)
    requires Consistent(g)
    ensures Part(g, 0, 0) == map[] && Part(g, 8, 0) == g
  {
  }

  lemma {:induction false} RowHasNoSlash(g: Position, row: int, column: nat)
    ensures '/' !in RowText(g, row, column)
    decreases 8 - column
  {
    if column < 8 {
      if Square(row, column) in g {
        RowHasNoSlash(g, row, column + 1);
      } else {
        BlanksPositive(g, row, column);
        RowHasNoSlash(g, row, column + Blanks(g, row, column));
      }
    }
  }

  /** The pieces of a text that is rows joined with slashes. */
  lemma JoinedRowsSplit(rows: seq<string>)
    requires rows != [] && (forall r :: 0 <= r < |rows| ==> '/' !in rows[r])
    requires Join(rows, "/") != ""
    ensures SplitOf(Join(rows, "/"), "/", false) == rows
  {
    hide Pieces;
    SplitUndoesJoin(rows, '/');
    assert [rows[0]] + rows[1..] == rows;
  }

  /** Loading the printed placement on an empty board rebuilds the position. */
  lemma PlacementRoundTrip(g: Position)
    requires Consistent(g)
    ensures Loaded(map[], Placement(g)) == Load(g, None)
  {
    hide Part, RowText, LoadRow, LoadRows, Join, SplitOf;
    var rows := Rows(g, 8);
    RowsAt(g, 8);
    forall r | 0 <= r < 8
      ensures '/' !in rows[r]
    {
      RowHasNoSlash(g, r, 0);
    }
    PlacementNotEmpty(rows, g);
    JoinedRowsSplit(rows);
    RowLoadedWhole(g, 7);
    RowsLoaded(g, 0, rows);
    assert rows[0..] == rows;
    PartEnds(g);
  }

  lemma PlacementNotEmpty(rows: seq<string>, g: Position)
    requires |rows| == 8
    ensures Join(rows, "/") != ""
  {
  }

  /** Loading everything toFEN prints rebuilds the position as well, but then always fails at the space
      behind the placement. */
  lemma WholeFenFails(g: Position, color: Color)
    requires Consistent(g)
    ensures Loaded(map[], Placement(g) + Suffix(color)) == Load(g, Some(BadCharacter))
  {
    hide Part, RowText, LoadRow, LoadRows, Join, SplitOf;
    var rows := Rows(g, 8);
    RowsAt(g, 8);
    var first, last := rows[..7], RowText(g, 7, 0) + Suffix(color);
    var all := first + [last];
    assert rows == first + [rows[7]];
    JoinSnoc(first, rows[7], "/");
    JoinSnoc(first, last, "/");
    assert Placement(g) + Suffix(color) == Join(all, "/");
    forall r | 0 <= r < 8
      ensures '/' !in all[r]
    {
      RowHasNoSlash(g, r, 0);
    }
    PlacementNotEmpty(all, g);
    JoinedRowsSplit(all);
    LastRowFails(g, color);
    RowsLoaded(g, 0, all);
    assert all[0..] == all;
    PartEnds(g);
  }

  lemma LastRowFails(g: Position, color: Color)
    requires Consistent(g)
    ensures LoadRow(Part(g, 7, 0), 7, 0, RowText(g, 7, 0) + Suffix(color)) == Load(Part(g, 8, 0), Some(BadCharacter))
  {
    hide Part, RowText;
    RowLoaded(g, 7, 0, Suffix(color));
    PartWholeRow(g, 7);
    assert Suffix(color)[0] == ' ';
  }

  // ---- The start, in the notation ----

  /** A row without gaps is printed letter by letter. */
  lemma {:induction false} FullRowText(g: Position, row: int, column: nat)
    requires column <= 8 && forall c :: column <= c < 8 ==> Square(row, c) in g
    ensures |RowText(g, row, column)| == 8 - column
    ensures forall c :: column <= c < 8 ==> RowText(g, row, column)[c - column] == Letter(g[Square(row, c)])
    decreases 8 - column
  {
    hide Letter, Blanks;
    if column < 8 {
      FullRowText(g, row, column + 1);
    }
  }

  lemma EmptyRowText(row: int)
    requires 2 <= row < 6
    ensures RowText(Start(), row, 0) == "8"
  {
    var g := Start();
    assert Blanks(g, row, 6) == 2;
    assert Blanks(g, row, 4) == 4;
    assert Blanks(g, row, 2) == 6;
    assert Blanks(g, row, 0) == 8;
    hide Blanks;
    RowTextNext(g, row, 0);
    RowTextNext(g, row, 8);
  }

  /** The rows of the starting position in section 16.1 of the PGN specification. */
  function StandardRows(): (rows: seq<string>)
    ensures |rows| == 8
  {
    ["rnbqkbnr", "pppppppp", "8", "8", "8", "8", "PPPPPPPP", "RNBQKBNR"]
  }

  /** The letter of each piece at the start. */
  lemma StartLetter(row: int, column: int)
    requires (row == 0 || row == 1 || row == 6 || row == 7) && 0 <= column < 8
    ensures |StandardRows()[row]| == 8
    ensures Square(row, column) in Start() && Letter(Start()[Square(row, column)]) == StandardRows()[row][column]
  {
  }

  lemma StartRowText(row: int)
    requires 0 <= row < 8
    ensures RowText(Start(), row, 0) == StandardRows()[row]
  {
    if 2 <= row < 6 {
      EmptyRowText(row);
    } else {
      forall column | 0 <= column < 8
        ensures |StandardRows()[row]| == 8
        ensures Square(row, column) in Start() && Letter(Start()[Square(row, column)]) == StandardRows()[row][column]
      {
        StartLetter(row, column);
      }
      StartLetter(row, 0);
      hide Start, Letter, RowText, StandardRows;
      FullRowText(Start(), row, 0);
    }
  }

  lemma StartRows()
    ensures Rows(Start(), 8) == StandardRows()
  {
    hide Start, RowText, Rows, StandardRows;
    RowsAt(Start(), 8);
    forall row | 0 <= row < 8
      ensures Rows(Start(), 8)[row] == StandardRows()[row]
    {
      StartRowText(row);
    }
  }

  /** The starting game is printed as the notation gives it, with white to move. */
  lemma StartIsPrinted(columns: Columns)
    ensures var game := StartGame(columns);
            Placement(game.board) == Join(StandardRows(), "/") && Suffix(game.turn) == " w - - 0 1"
    ensures Suffix(Black) == " b - - 0 1"
  {
    hide Start, Rows, StandardRows, Join;
    StartRows();
  }

  // ---- Which texts can be loaded ----

  /** How many columns a character takes up. */
  function CharWidth(c: char): nat {
    if '0' <= c <= '9' then c as int - '0' as int else 1
  }

  function Width(text: string): nat {
    if text == "" then 0 else CharWidth(text[0]) + Width(text[1..])
  }

  const LETTERS := "BKNPQRbknpqr"

  /** Every character is a digit or the letter of a piece, and each piece has its square on the board. */
  predicate Fits(text: string, row: int, column: int) {
    forall i :: 0 <= i < |text| && !('0' <= text[i] <= '9') ==>
      text[i] in LETTERS && OnBoard(Square(row, column + Width(text[..i])))
  }

  lemma LettersRead(c: char)
    ensures ReadLetter(c) == None <==> c !in LETTERS
  {
  }

  lemma NothingFits(row: int, column: int)
    ensures Fits("", row, column)
  {
  }

  lemma FitsFirst(text: string, row: int, column: int)
    requires text != ""
    ensures Fits(text, row, column) <==>
              && ('0' <= text[0] <= '9' || (text[0] in LETTERS && OnBoard(Square(row, column))))
              && Fits(text[1..], row, column + CharWidth(text[0]))
  {
    forall i | 0 <= i < |text| - 1
      ensures Width(text[..i + 1]) == CharWidth(text[0]) + Width(text[1..][..i]) && text[1..][i] == text[i + 1]
    {
      assert text[..i + 1][1..] == text[1..][..i];
    }
    var rest, after := text[1..], column + CharWidth(text[0]);
    if Fits(text, row, column) {
      forall i | 0 <= i < |rest| && !('0' <= rest[i] <= '9')
        ensures rest[i] in LETTERS && OnBoard(Square(row, after + Width(rest[..i])))
      {
        assert text[i + 1] in LETTERS;
      }
      assert '0' <= text[0] <= '9' || text[0] in LETTERS;
    }
    if Fits(rest, row, after) && ('0' <= text[0] <= '9' || (text[0] in LETTERS && OnBoard(Square(row, column)))) {
      forall i | 0 <= i < |text| && !('0' <= text[i] <= '9')
        ensures text[i] in LETTERS && OnBoard(Square(row, column + Width(text[..i])))
      {
        if 0 < i {
          assert rest[i - 1] in LETTERS;
        }
      }
    }
  }

  lemma {:induction false} RowLoadedExactly(g: Position, row: int, column: int, text: string)
    requires Consistent(g)
    ensures LoadRow(g, row, column, text).problem == None <==> Fits(text, row, column)
    ensures Consistent(LoadRow(g, row, column, text).board)
    decreases |text|
  {
    hide ReadLetter, Fits;
    NothingFits(row, column);
    if text != "" {
      FitsFirst(text, row, column);
      LettersRead(text[0]);
      var piece, s := ReadLetter(text[0]), Square(row, column);
      if '0' <= text[0] <= '9' {
        RowLoadedExactly(g, row, column + (text[0] as int - '0' as int), text[1..]);
      } else if piece.Some? && OnBoard(s) {
        RowLoadedExactly(g[s := Piece(piece.value.0, piece.value.1, s)], row, column + 1, text[1..]);
      }
    }
  }

  lemma {:induction false} RowsLoadedExactly(g: Position, row: int, rows: seq<string>)
    requires Consistent(g)
    ensures LoadRows(g, row, rows).problem == None <==> forall r :: 0 <= r < |rows| ==> Fits(rows[r], row + r, 0)
    ensures Consistent(LoadRows(g, row, rows).board)
    decreases |rows|
  {
    hide LoadRow, Fits, Consistent;
    if rows != [] {
      RowLoadedExactly(g, row, 0, rows[0]);
      var l := LoadRow(g, row, 0, rows[0]);
      if l.problem == None {
        RowsLoadedExactly(l.board, row + 1, rows[1..]);
        assert forall r :: 0 <= r < |rows| - 1 ==> rows[1..][r] == rows[r + 1];
        assert (forall r :: 0 <= r < |rows| ==> Fits(rows[r], row + r, 0))
          <==> forall r :: 0 <= r < |rows| - 1 ==> Fits(rows[1..][r], row + 1 + r, 0) by {
          RowsFit(row, rows);
        }
      }
    }
  }

  lemma RowsFit(row: int, rows: seq<string>)
    requires rows != [] && Fits(rows[0], row, 0)
    ensures (forall r :: 0 <= r < |rows| ==> Fits(rows[r], row + r, 0))
       <==> forall r :: 0 <= r < |rows| - 1 ==> Fits(rows[1..][r], row + 1 + r, 0)
  {
    hide Fits;
    if forall r :: 0 <= r < |rows| - 1 ==> Fits(rows[1..][r], row + 1 + r, 0) {
      forall r | 0 <= r < |rows|
        ensures Fits(rows[r], row + r, 0)
      {
        if 0 < r {
          assert Fits(rows[1..][r - 1], row + 1 + (r - 1), 0);
        }
      }
    }
    if forall r :: 0 <= r < |rows| ==> Fits(rows[r], row + r, 0) {
      forall r | 0 <= r < |rows| - 1
        ensures Fits(rows[1..][r], row + 1 + r, 0)
      {
        assert Fits(rows[r + 1], row + (r + 1), 0);
      }
    }
  }

  /** A text is loaded without a problem exactly when in each of its rows every character is a digit or the
      letter of a piece, and each piece has its square on the board. Whatever the text, the pieces that are
      placed stand on the board, where they record. */
  lemma LoadsExactly(g: Position, fen: string)
    requires Consistent(g)
    ensures var rows := SplitOf(fen, "/", false);
            Loaded(g, fen).problem == None <==> forall r :: 0 <= r < |rows| ==> Fits(rows[r], r, 0)
    ensures Consistent(Loaded(g, fen).board)
  {
    hide Fits, LoadRows, Consistent, SplitOf;
    RowsLoadedExactly(g, 0, SplitOf(fen, "/", false));
  }
}
