/** Moves keep positions consistent. */
module ChessConsistency {
  import opened Options
  import opened ChessBoard
  import opened ChessMoves
  import opened ChessPlay

  predicate IsCastle(m: Move) {
    m.flag.KingSide? || m.flag.QueenSide?
  }

  /** The piece a move puts on its target. */
  function Arriving(p: Position, m: Move): Piece {
    Piece(if m.promotion.Some? then m.promotion.value else m.piece, p.turn)
  }

  /** Square by square, what a move does to the board. */
  lemma MakeAt(p: Position, m: Move, i: int)
    requires Recoverable(p, m) && 0 <= i < 128
    ensures At(Make(p, m).board, i)
         == if i == m.from then None
            else if i == m.to then Some(Arriving(p, m))
            else if m.flag.EpCapture? && i == m.to - Forward(p.turn) then None
            else if IsCastle(m) && i == RookMove(m).0 then None
            else if IsCastle(m) && i == RookMove(m).1 then At(p.board, RookMove(m).0)
            else At(p.board, i)
  {
  }

  /** What the squares of a pseudo-legal move have in common. */
  ghost predicate Lands(p: Position, m: Move) {
    Recoverable(p, m) && OnBoard(m.from) && OnBoard(m.to)
    && (m.piece.Pawn? ==> (m.promotion.Some? <==> Rank(m.to) == RANK_8 || Rank(m.to) == RANK_1))
    && (m.promotion.Some? ==> !m.promotion.value.Pawn?)
    && (IsCastle(m) ==> m.from == HomeKing(p.turn) && RookMove(m).0 == HomeRook(p.turn, m.flag.KingSide?)
                        && Holds(p.board, RookMove(m).0, Rook, p.turn))
    && (m.flag.BigPawn? ==> m.piece.Pawn? && m.to == m.from + 2 * Forward(p.turn) && SecondRank(p.turn, m.from)
                            && At(p.board, m.from + Forward(p.turn)).None?)
    && (m.captured.None? || m.flag.Capture? || (m.flag.EpCapture? && m.captured == Some(Pawn)))
    && (At(p.board, m.to).Some? ==> m.captured == Some(At(p.board, m.to).value.kind))
  }

  lemma PseudoLegalLands(p: Position, safe: int -> bool, m: Move)
    requires Consistent(p) && PseudoLegal(p, safe, m)
    ensures Lands(p, m)
  {
    PseudoLegalRecoverable(p, safe, m);
    if CastleMove(p, safe, m) {
      CastleLands(p, safe, m);
    } else {
      var i :| MoveFrom(p, i, m);
      var to, flag :| Target(p, i, to, flag) && m in AddMove(p, i, to, flag);
      AddedMove(p, i, to, flag, m);
      if At(p.board, i).value.kind.Pawn? {
        PawnLands(p, i, to, flag, m);
      } else {
        PieceLands(p, i, to, flag, m);
      }
    }
  }

  lemma CastleLands(p: Position, safe: int -> bool, m: Move)
    requires Consistent(p) && CastleMove(p, safe, m) && Recoverable(p, m)
    ensures Lands(p, m)
  {
  }

  lemma PawnLands(p: Position, i: int, to: int, flag: Flag, m: Move)
    requires Consistent(p) && OnBoard(i) && Own(p, i) && At(p.board, i).value.kind.Pawn? && Recoverable(p, m)
    requires PawnTarget(p, i, to, flag) && m == BuildMove(p, i, to, flag, m.promotion)
    requires (m.promotion.Some? <==> Promotes(p, i, to)) && (m.promotion.Some? ==> m.promotion.value in PROMOTIONS)
    ensures Lands(p, m)
  {
  }

  lemma PieceLands(p: Position, i: int, to: int, flag: Flag, m: Move)
    requires Consistent(p) && OnBoard(i) && Own(p, i) && !At(p.board, i).value.kind.Pawn? && Recoverable(p, m)
    requires PieceTarget(p, i, to, flag) && m == BuildMove(p, i, to, flag, m.promotion) && m.promotion.None?
    ensures Lands(p, m)
  {
  }

  // ----- the parts of consistency -----

  lemma MakePlaced(p: Position, m: Move)
    requires Consistent(p) && Lands(p, m)
    ensures Placed(Make(p, m).board)
  {
    var b := Make(p, m).board;
    forall i | 0 <= i < 128 && b[i].Some?
      ensures OnBoard(i) && (b[i].value.kind.Pawn? ==> RANK_8 < Rank(i) < RANK_1)
    {
      MakeAt(p, m, i);
      assert p.board[i].Some? ==> OnBoard(i);
      assert p.board[m.from].Some?;
    }
  }

  lemma MakeKing(p: Position, m: Move, c: Color)
    requires Consistent(p) && Lands(p, m) && (c == p.turn || m.captured != Some(King))
    ensures KingRecorded(Make(p, m).board, Make(p, m).kings.Of(c), c)
  {
    var q := Make(p, m);
    assert KingMoved(Moved(p, m), m) <==> m.piece.King?;
    assert SideConsistent(p, c);
    forall i | Holds(q.board, i, King, c) ensures i == q.kings.Of(c) {
      KingFound(p, m, c, i);
    }
    var king := q.kings.Of(c);
    if king != EMPTY {
      MakeAt(p, m, king);
    }
  }

  lemma KingFound(p: Position, m: Move, c: Color, i: int)
    requires Consistent(p) && Lands(p, m) && Holds(Make(p, m).board, i, King, c)
    ensures i == if c == p.turn && m.piece.King? then m.to else p.kings.Of(c)
  {
    assert SideConsistent(p, c) && KingRecorded(p.board, p.kings.Of(c), c);
    MakeAt(p, m, i);
    assert Holds(p.board, i, King, c) ==> i == p.kings.Of(c);
    assert Holds(p.board, m.from, King, c) ==> m.from == p.kings.Of(c);
  }

  lemma MakeRights(p: Position, m: Move, c: Color)
    requires Consistent(p) && Lands(p, m) && m.captured != Some(King)
    ensures RightsBacked(Make(p, m).board, Make(p, m).kings.Of(c), Make(p, m).castling.Of(c), c)
  {
    var q := Make(p, m);
    assert KingMoved(Moved(p, m), m) <==> m.piece.King?;
    if m.piece.King? && c == p.turn {
      assert q.castling.Of(c) == Rights(false, false);
    } else {
      assert q.kings.Of(c) == p.kings.Of(c);
      assert q.castling.Of(c) == Losing(p.castling.Of(c), c, if c == p.turn then m.from else m.to);
      assert SideConsistent(p, c);
      if q.castling.Of(c).kingSide {
        RookStays(p, m, c, true);
      }
      if q.castling.Of(c).queenSide {
        RookStays(p, m, c, false);
      }
    }
  }

  /** A rook at home leaves it only as the moving or the captured piece, or with its king. */
  lemma RookStays(p: Position, m: Move, c: Color, kingSide: bool)
    requires Consistent(p) && Lands(p, m) && (m.piece.King? ==> c != p.turn)
    requires Holds(p.board, HomeRook(c, kingSide), Rook, c)
    requires HomeRook(c, kingSide) != if c == p.turn then m.from else m.to
    ensures Holds(Make(p, m).board, HomeRook(c, kingSide), Rook, c)
  {
    MakeAt(p, m, HomeRook(c, kingSide));
  }

  lemma MakeEp(p: Position, m: Move)
    requires Consistent(p) && Lands(p, m)
    ensures EpBacked(Make(p, m).board, Make(p, m).epSquare, Make(p, m).turn)
  {
  }

  /** A generated move keeps the position consistent exactly if it captures no king; the
      square of a captured king stays recorded. */
  lemma MakeKeepsConsistent(p: Position, safe: int -> bool, m: Move)
    requires Consistent(p) && PseudoLegal(p, safe, m)
    ensures Playable(p, m)
    ensures Consistent(Make(p, m)) <==> m.captured != Some(King)
  {
    PseudoLegalLands(p, safe, m);
    if m.captured != Some(King) {
      MakePlaced(p, m);
      MakeKing(p, m, White);
      MakeKing(p, m, Black);
      MakeRights(p, m, White);
      MakeRights(p, m, Black);
      MakeEp(p, m);
    } else {
      CapturedKing(p, m);
    }
  }

  lemma CapturedKing(p: Position, m: Move)
    requires Consistent(p) && Lands(p, m) && m.captured == Some(King)
    ensures !Consistent(Make(p, m))
  {
  }

  /** A rook next to a lone king: it may take the king, which stays recorded where the rook
      stands then. */
  lemma KingTakenStaysRecorded(p: Position, safe: int -> bool, m: Move)
    requires forall i :: 0 <= i < 128 ==>
               p.board[i] == if i == A8 then Some(Piece(King, Black))
                             else if i == A8 + 16 then Some(Piece(Rook, White)) else None
    requires p.kings == Sides(EMPTY, A8) && p.castling == Sides(Rights(false, false), Rights(false, false))
    requires p.turn == White && p.epSquare == EMPTY && p.halfMoves == 0 && p.moveNumber == 1
    requires m == Move(White, A8 + 16, A8, Capture, Rook, None, Some(King))
    ensures Consistent(p) && PseudoLegal(p, safe, m) && Playable(p, m)
    ensures Make(p, m).kings.black == A8 && Holds(Make(p, m).board, A8, Rook, White) && !Consistent(Make(p, m))
  {
    RookTakes(p, m);
    assert MoveFrom(p, A8 + 16, m);
    MakeKeepsConsistent(p, safe, m);
    PseudoLegalLands(p, safe, m);
    MakeAt(p, m, A8);
  }

  lemma RookTakes(p: Position, m: Move)
    requires Holds(p.board, A8 + 16, Rook, White) && Holds(p.board, A8, King, Black) && p.turn == White
    requires m == Move(White, A8 + 16, A8, Capture, Rook, None, Some(King))
    ensures MoveFrom(p, A8 + 16, m)
  {
    var from := A8 + 16;
    assert Step(from, -16, 1) == Step(from, -16, 0) - 16 == A8;
    assert Offsets(Rook)[0] == -16;
    assert WalksTo(p.board, Rook, from, -16, 1, A8);
    assert Target(p, from, A8, Capture);
    assert AddMove(p, from, A8, Capture) == [m];
  }

  // ----- what a move does to rights, en passant square and counters -----

  predicate HasRight(rights: Rights, kingSide: bool) {
    if kingSide then rights.kingSide else rights.queenSide
  }

  /** A right outlasts a move exactly if its king does not leave home and its rook's home
      square is neither left nor entered.  The right of a captured king outlasts its capture. */
  lemma RightsOutlast(p: Position, safe: int -> bool, m: Move, c: Color, kingSide: bool)
    requires Consistent(p) && PseudoLegal(p, safe, m)
    ensures Playable(p, m)
    ensures HasRight(Make(p, m).castling.Of(c), kingSide)
            <==> HasRight(p.castling.Of(c), kingSide)
                 && HomeKing(c) != m.from
                 && HomeRook(c, kingSide) != m.from && HomeRook(c, kingSide) != m.to
  {
    PseudoLegalLands(p, safe, m);
    if c == p.turn {
      OwnRight(p, m, kingSide);
    } else {
      TheirRight(p, m, kingSide);
    }
  }

  lemma OwnRight(p: Position, m: Move, kingSide: bool)
    requires Consistent(p) && Lands(p, m)
    ensures var c := p.turn;
            HasRight(Make(p, m).castling.Of(c), kingSide)
            <==> HasRight(p.castling.Of(c), kingSide)
                 && HomeKing(c) != m.from
                 && HomeRook(c, kingSide) != m.from && HomeRook(c, kingSide) != m.to
  {
    assert KingMoved(Moved(p, m), m) <==> m.piece.King?;
    assert SideConsistent(p, p.turn);
    assert !Own(p, m.to);
  }

  lemma TheirRight(p: Position, m: Move, kingSide: bool)
    requires Consistent(p) && Lands(p, m)
    ensures var c := Swap(p.turn);
            HasRight(Make(p, m).castling.Of(c), kingSide)
            <==> HasRight(p.castling.Of(c), kingSide)
                 && HomeKing(c) != m.from
                 && HomeRook(c, kingSide) != m.from && HomeRook(c, kingSide) != m.to
  {
    assert SideConsistent(p, Swap(p.turn));
    assert Own(p, m.from);
    assert Make(p, m).castling.Of(Swap(p.turn)) == Losing(p.castling.Of(Swap(p.turn)), Swap(p.turn), m.to);
  }

  /** After a pawn's double step the en passant square is the one it skipped; after any other
      move there is none. */
  lemma EpIsSkipped(p: Position, safe: int -> bool, m: Move)
    requires Consistent(p) && PseudoLegal(p, safe, m)
    ensures Playable(p, m)
    ensures Make(p, m).epSquare
            == if m.piece.Pawn? && (m.to == m.from + 32 || m.to == m.from - 32) then (m.from + m.to) / 2 else EMPTY
  {
    PseudoLegalLands(p, safe, m);
    if m.piece.Pawn? && !m.flag.BigPawn? {
      PawnSteps(p, safe, m);
    }
  }

  lemma PawnSteps(p: Position, safe: int -> bool, m: Move)
    requires Consistent(p) && PseudoLegal(p, safe, m) && m.piece.Pawn? && !m.flag.BigPawn?
    ensures -17 <= m.to - m.from <= 17
  {
    assert !CastleMove(p, safe, m) by {
      if CastleMove(p, safe, m) {
        CastleRecoverable(p, safe, m);
      }
    }
    var i :| MoveFrom(p, i, m);
    var to, flag :| Target(p, i, to, flag) && m in AddMove(p, i, to, flag);
    AddedMove(p, i, to, flag, m);
  }

  /** Moves that take nothing and move no pawn are counted; the others start the count anew. */
  lemma HalfMovesCount(p: Position, safe: int -> bool, m: Move)
    requires Consistent(p) && PseudoLegal(p, safe, m)
    ensures Playable(p, m)
    ensures Make(p, m).halfMoves == if m.piece.Pawn? || m.captured.Some? then 0 else p.halfMoves + 1
  {
    PseudoLegalLands(p, safe, m);
  }
}
