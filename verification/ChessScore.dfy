/**
 How the two scoring players compare moves, and what the move they pick is. The comparison asks for mate,
 check, (in the second player) no check to itself, a capture, a larger capture, and then for the place.
 */
module ChessScore {
  import opened ChessBoard
  import opened ChessMoves
  import opened ChessSearch
  import opened Wrappers

  function TypeValue(kind: Kind): nat {
    match kind
    case Bishop => 3
    case King => 0
    case Knight => 3
    case Pawn => 1
    case Queen => 9
    case Rook => 5
  }

  function CenterDistance(column: int): nat {
    match column
    case 3 => 0
    case 4 => 0
    case 2 => 1
    case 5 => 1
    case 1 => 2
    case 6 => 2
    case _ => 3
  }

  function MoveCode(m: Move): int {
    var source, destination := m.from.row * 8 + m.from.column, m.to.row * 8 + m.to.column;
    (source * 64 + destination) * 8
  }

  /** The part of checkSuperior behind the captures. */
  predicate BetterPlace(turn: Color, check: Move, alternative: Move) {
    if check.to.row != alternative.to.row then
      if turn == Black then check.to.row <= alternative.to.row else alternative.to.row <= check.to.row
    else if check.to.column != alternative.to.column
         && CenterDistance(check.to.column) != CenterDistance(alternative.to.column) then
      CenterDistance(alternative.to.column) < CenterDistance(check.to.column)
    else MoveCode(check) < MoveCode(alternative)
  }

  /** checkSuperior: the alternative is preferred. `careful` is the second scoring player. */
  predicate Superior(turn: Color, careful: bool, check: LabeledMove, alternative: LabeledMove) {
    if check.isCheckmated != alternative.isCheckmated then alternative.isCheckmated
    else if check.isInCheck != alternative.isInCheck then alternative.isInCheck
    else if careful && check.isSelfInCheck != alternative.isSelfInCheck then !alternative.isSelfInCheck
    else if check.captured.Some? && alternative.captured == None then false
    else if check.captured.Some? && TypeValue(check.captured.value.kind) < TypeValue(alternative.captured.value.kind) then true
    else if check.captured == None && alternative.captured.Some? then true
    else BetterPlace(turn, check.move, alternative.move)
  }

  // ---- The comparison as an order ----

  /** Mate before check, before no check to oneself, before a capture. */
  function Rank(careful: bool, l: LabeledMove): nat {
    (if l.isCheckmated then 8 else 0) + (if l.isInCheck then 4 else 0)
    + (if careful && !l.isSelfInCheck then 2 else 0) + if l.captured.Some? then 1 else 0
  }

  function Value(l: LabeledMove): nat {
    if l.captured.Some? then TypeValue(l.captured.value.kind) else 0
  }

  /** How many rows the target is away from the side the player starts from. */
  function Ahead(turn: Color, m: Move): int {
    if turn == Black then m.to.row else 7 - m.to.row
  }

  /** How many columns it is away from the nearer edge. */
  function Inside(m: Move): int {
    if m.to.column < 4 then m.to.column else 7 - m.to.column
  }

  /** How far the move leads, then how near to the centre, then its number. */
  function Place(turn: Color, m: Move): int {
    (Ahead(turn, m) * 4 + Inside(m)) * 0x8000 + MoveCode(m)
  }

  /** The values in their order: a king counts least. */
  lemma ValuesOrdered()
    ensures TypeValue(King) < TypeValue(Pawn) < TypeValue(Knight) == TypeValue(Bishop) < TypeValue(Rook) < TypeValue(Queen)
    ensures TypeValue(Queen) == 9 && TypeValue(Rook) == 5 && TypeValue(Bishop) == 3 && TypeValue(Pawn) == 1
  {
  }

  predicate OnBoardMove(m: Move) {
    OnBoard(m.from) && OnBoard(m.to)
  }

  lemma CodeBounds(m: Move)
    requires OnBoardMove(m)
    ensures 0 <= MoveCode(m) < 0x8000
  {
  }

  lemma CodesDiffer(a: Move, b: Move)
    requires OnBoardMove(a) && OnBoardMove(b)
    ensures MoveCode(a) == MoveCode(b) <==> a == b
  {
    if MoveCode(a) == MoveCode(b) {
      assert a.from.row * 8 + a.from.column == b.from.row * 8 + b.from.column;
    }
  }

  lemma CenterIsInside(m: Move)
    requires OnBoardMove(m)
    ensures CenterDistance(m.to.column) == 3 - Inside(m) && 0 <= Inside(m) <= 3
  {
  }

  /** The place is a number: no two moves have the same. */
  lemma PlaceIs(turn: Color, a: Move, b: Move)
    requires OnBoardMove(a) && OnBoardMove(b)
    ensures BetterPlace(turn, a, b) <==> Place(turn, a) < Place(turn, b)
    ensures Place(turn, a) == Place(turn, b) <==> a == b
  {
    CodeBounds(a);
    CodeBounds(b);
    CodesDiffer(a, b);
    CenterIsInside(a);
    CenterIsInside(b);
    hide MoveCode, CenterDistance, OnBoardMove, Inside;
    assert a.to.column == b.to.column ==> CenterDistance(a.to.column) == CenterDistance(b.to.column);
  }

  /** The alternative wins by its rank, or at equal rank by a larger capture or by its place: a larger capture
      in the other move is not looked at. */
  lemma SuperiorIs(turn: Color, careful: bool, a: LabeledMove, b: LabeledMove)
    requires OnBoardMove(a.move) && OnBoardMove(b.move)
    ensures Superior(turn, careful, a, b) <==>
              || Rank(careful, a) < Rank(careful, b)
              || (Rank(careful, a) == Rank(careful, b)
                  && (Value(a) < Value(b) || Place(turn, a.move) < Place(turn, b.move)))
  {
    PlaceIs(turn, a.move, b.move);
    hide Place, BetterPlace, TypeValue, OnBoardMove;
  }

  /** Two moves are each preferred to the other exactly when they have the same rank and the one with the larger
      capture has the worse place. */
  lemma BothSuperiorExactly(turn: Color, careful: bool, a: LabeledMove, b: LabeledMove)
    requires OnBoardMove(a.move) && OnBoardMove(b.move)
    ensures Superior(turn, careful, a, b) && Superior(turn, careful, b, a) <==>
              && Rank(careful, a) == Rank(careful, b)
              && ((Value(a) < Value(b) && Place(turn, b.move) < Place(turn, a.move))
                  || (Value(b) < Value(a) && Place(turn, a.move) < Place(turn, b.move)))
  {
    SuperiorIs(turn, careful, a, b);
    SuperiorIs(turn, careful, b, a);
    hide Superior, Rank, Value, Place;
  }

  // ---- The move that is picked ----

  function Comparison(turn: Color, careful: bool): (LabeledMove, LabeledMove) -> bool {
    (a, b) => Superior(turn, careful, a, b)
  }

  ghost predicate AllOnBoard(labeled: seq<LabeledMove>) {
    forall l :: l in labeled ==> OnBoardMove(l.move)
  }

  lemma BestOfOneMore(labeled: seq<LabeledMove>, turn: Color, careful: bool)
    requires 2 <= |labeled|
    ensures var before, last := labeled[..|labeled| - 1], labeled[|labeled| - 1];
            var best := Best(before, Comparison(turn, careful));
            && best in before && (forall l :: l in labeled <==> l in before || l == last)
            && Best(labeled, Comparison(turn, careful)) == if Superior(turn, careful, best, last) then last else best
  {
    assert labeled == labeled[..|labeled| - 1] + [labeled[|labeled| - 1]];
    hide Superior;
  }

  lemma {:induction false} BestRank(labeled: seq<LabeledMove>, turn: Color, careful: bool)
    requires labeled != [] && AllOnBoard(labeled)
    ensures forall l :: l in labeled ==> Rank(careful, l) <= Rank(careful, Best(labeled, Comparison(turn, careful)))
    decreases |labeled|
  {
    hide Best, Superior, Rank, Comparison;
    if |labeled| == 1 {
      assert labeled == [labeled[0]];
    } else {
      var before, last := labeled[..|labeled| - 1], labeled[|labeled| - 1];
      BestOfOneMore(labeled, turn, careful);
      BestRank(before, turn, careful);
      SuperiorIs(turn, careful, Best(before, Comparison(turn, careful)), last);
    }
  }

  /** The first wishes are granted, in their order: a mate if there is one; among equals in this a check; then,
      for the careful player, no check to himself; then a capture. */
  lemma FirstWishesGranted(labeled: seq<LabeledMove>, turn: Color, careful: bool, l: LabeledMove)
    requires l in labeled && AllOnBoard(labeled)
    ensures var best := Best(labeled, Comparison(turn, careful));
            var sameMate := best.isCheckmated == l.isCheckmated;
            var sameCheck := sameMate && best.isInCheck == l.isInCheck;
            var same := sameCheck && (careful ==> best.isSelfInCheck == l.isSelfInCheck);
            && (l.isCheckmated ==> best.isCheckmated)
            && (sameMate && l.isInCheck ==> best.isInCheck)
            && (sameCheck && careful && !l.isSelfInCheck ==> !best.isSelfInCheck)
            && (same && l.captured.Some? ==> best.captured.Some?)
  {
    hide Best;
    BestRank(labeled, turn, careful);
  }

  ghost predicate Agreeing(labeled: seq<LabeledMove>, turn: Color, careful: bool) {
    forall a, b :: a in labeled && b in labeled ==> !(Superior(turn, careful, a, b) && Superior(turn, careful, b, a))
  }

  /** Where no two moves are each preferred to the other, the comparison is that of rank, capture and place. */
  lemma AgreeingSuperior(turn: Color, careful: bool, a: LabeledMove, b: LabeledMove)
    requires OnBoardMove(a.move) && OnBoardMove(b.move)
    requires !(Superior(turn, careful, a, b) && Superior(turn, careful, b, a))
    ensures Superior(turn, careful, a, b) <==>
              || Rank(careful, a) < Rank(careful, b)
              || (Rank(careful, a) == Rank(careful, b) && Value(a) < Value(b))
              || (Rank(careful, a) == Rank(careful, b) && Value(a) == Value(b) && Place(turn, a.move) < Place(turn, b.move))
  {
    SuperiorIs(turn, careful, a, b);
    SuperiorIs(turn, careful, b, a);
    hide Superior, Rank, Value, Place;
  }

  /** Then no move is preferred to the one that is picked, whatever the order of the list. */
  lemma {:induction false} BestIsUnbeaten(labeled: seq<LabeledMove>, turn: Color, careful: bool)
    requires labeled != [] && AllOnBoard(labeled) && Agreeing(labeled, turn, careful)
    ensures forall l :: l in labeled ==> !Superior(turn, careful, Best(labeled, Comparison(turn, careful)), l)
    decreases |labeled|
  {
    hide Best, Superior, Rank, Value, Place, Comparison, OnBoardMove;
    if |labeled| == 1 {
      assert labeled == [labeled[0]];
      assert Best(labeled, Comparison(turn, careful)) in labeled;
    } else {
      var before, last := labeled[..|labeled| - 1], labeled[|labeled| - 1];
      var best := Best(before, Comparison(turn, careful));
      BestOfOneMore(labeled, turn, careful);
      BestIsUnbeaten(before, turn, careful);
      if Superior(turn, careful, best, last) {
        forall l | l in before
          ensures !Superior(turn, careful, last, l)
        {
          Transitive(turn, careful, best, last, l);
        }
      }
    }
  }

  lemma Transitive(turn: Color, careful: bool, a: LabeledMove, b: LabeledMove, c: LabeledMove)
    requires OnBoardMove(a.move) && OnBoardMove(b.move) && OnBoardMove(c.move) && Agreeing([a, b, c], turn, careful)
    requires Superior(turn, careful, a, b) && !Superior(turn, careful, a, c)
    ensures !Superior(turn, careful, b, c)
  {
    assert a in [a, b, c] && b in [a, b, c] && c in [a, b, c];
    AgreeingSuperior(turn, careful, a, b);
    AgreeingSuperior(turn, careful, b, c);
    AgreeingSuperior(turn, careful, a, c);
    hide Superior, Rank, Value, Place;
  }

  /** The capture of a queen and that of a pawn one row further on: whichever comes last in the list is picked. */
  lemma OrderDecides(careful: bool)
    ensures exists queen: LabeledMove, pawn: LabeledMove ::
              && OnBoardMove(queen.move) && OnBoardMove(pawn.move) && Value(queen) == 9 && Value(pawn) == 1
              && Best([queen, pawn], Comparison(White, careful)) == pawn
              && Best([pawn, queen], Comparison(White, careful)) == queen
  {
    var from, near, far := Square(5, 0), Square(4, 0), Square(3, 0);
    var queen := LabeledMove(Move(from, near), Some(Piece(Queen, Black, near)), false, false, false);
    var pawn := LabeledMove(Move(from, far), Some(Piece(Pawn, Black, far)), false, false, false);
    BothSuperiorExactly(White, careful, queen, pawn);
    assert Superior(White, careful, queen, pawn) && Superior(White, careful, pawn, queen);
    hide Superior;
    assert [queen, pawn][..1] == [queen] && [pawn, queen][..1] == [pawn];
  }

  lemma LabeledOnBoard(g: Position, turn: Color, columns: set<nat>, labeled: seq<LabeledMove>)
    requires Consistent(g) && AllLabeled(g, turn, columns, labeled)
    ensures AllOnBoard(labeled)
  {
    hide Labels, Reaches;
  }

  /** On the board: if some move that may be played takes the other king or leaves him looking mated, so does
      the move that is picked; and if some move gives what looks like check, it does that or looks like mate. */
  lemma MateIsPlayed(g: Position, turn: Color, columns: set<nat>, labeled: seq<LabeledMove>, careful: bool, m: Move)
    requires Consistent(g) && AllLabeled(g, turn, columns, labeled) && Playable(g, turn, columns, m)
    ensures labeled != []
    ensures var best := Best(labeled, Comparison(turn, careful)).move;
            && Playable(g, turn, columns, best)
            && (LooksMated(Moved(g, g[m.from], m.to), Other(turn)) ==> LooksMated(Moved(g, g[best.from], best.to), Other(turn)))
            && (LooksChecked(Moved(g, g[m.from], m.to), Other(turn))
                ==> LooksMated(Moved(g, g[best.from], best.to), Other(turn))
                    || LooksChecked(Moved(g, g[best.from], best.to), Other(turn)))
  {
    hide LooksMated, LooksChecked, KingMoved, Best, Comparison, CanReach;
    LabeledOnBoard(g, turn, columns, labeled);
    var k :| 0 <= k < |labeled| && labeled[k].move == m;
    var best := Best(labeled, Comparison(turn, careful));
    var b :| 0 <= b < |labeled| && labeled[b] == best;
    assert Labels(g, turn, labeled[b]) && Labels(g, turn, labeled[k]);
    hide AllLabeled, AllOnBoard;
    FirstWishesGranted(labeled, turn, careful, labeled[k]);
  }
}
