/** Legal moves: what is left of the generated moves, against the rules. */
module ChessLegal {
  import opened Options
  import opened ChessBoard
  import opened ChessMoves
  import opened ChessPlay
  import opened ChessTables
  import opened ChessAttacks
  import opened ChessGenerate
  import opened ChessConsistency
  import opened ChessRules

  ghost predicate LeavesKingSafe(p: Position, m: Move)
    requires Playable(p, m)
  {
    !IsAttacked(Make(p, m).board, Swap(p.turn), Make(p, m).kings.Of(p.turn))
  }

  ghost predicate Legal(p: Position, m: Move) {
    PseudoLegal(p, Safe(p), m) && Playable(p, m) && LeavesKingSafe(p, m)
  }

  /** A move the rules allow that does not leave the own king under attack.  A missing king is
      tested at a place beside the board. */
  ghost predicate LegalByRules(p: Position, m: Move) {
    Allowed(p, m) && Playable(p, m)
    && var q := Make(p, m);
       if q.kings.Of(p.turn) == EMPTY then !IsAttacked(q.board, Swap(p.turn), EMPTY)
       else !UnderAttack(q.board, Swap(p.turn), q.kings.Of(p.turn))
  }

  /** The moves that are left are those the rules allow. */
  lemma LegalIsByRules(p: Position, m: Move)
    requires Consistent(p)
    ensures Legal(p, m) <==> LegalByRules(p, m)
  {
    PseudoLegalIsAllowed(p, m);
    if PseudoLegal(p, Safe(p), m) {
      OwnKingOnBoard(p, m);
      var q := Make(p, m);
      if q.kings.Of(p.turn) != EMPTY {
        AttackedIsUnderAttack(q.board, Swap(p.turn), q.kings.Of(p.turn));
      }
    }
  }

  /** Castling is legal exactly under its own conditions: where the king comes to stand is not
      attacked before, and the rook covers what the king leaves open. */
  lemma CastlingLegalIff(p: Position, m: Move)
    requires Consistent(p) && (m.flag.KingSide? || m.flag.QueenSide?)
    ensures Legal(p, m) <==> Allowed(p, m)
  {
    PseudoLegalIsAllowed(p, m);
    if Allowed(p, m) {
      OwnKingOnBoard(p, m);
      KingAfterCastling(p, m);
      var b, c := p.board, Make(p, m).board;
      forall i | Threatens(c, Swap(p.turn), i, m.to) ensures Threatens(b, Swap(p.turn), i, m.to) {
        ThreatBeforeCastling(p, m, i);
      }
      assert !UnderAttack(c, Swap(p.turn), m.to);
      AttackedIsUnderAttack(c, Swap(p.turn), m.to);
    }
  }

  lemma KingAfterCastling(p: Position, m: Move)
    requires Consistent(p) && Allowed(p, m) && (m.flag.KingSide? || m.flag.QueenSide?)
    ensures Playable(p, m) && Make(p, m).kings.Of(p.turn) == m.to
  {
    MadeByRules(p, m, m.to);
  }

  /** The board after castling. */
  ghost predicate Castled(b: Board, c: Board, m: Move, color: Color) {
    forall k :: 0 <= k < 128 ==>
      At(c, k) == if k == m.from || k == HomeRook(color, m.flag.KingSide?) then None
                  else if k == m.to then Some(Piece(King, color))
                  else if k == (m.from + m.to) / 2 then Some(Piece(Rook, color)) else At(b, k)
  }

  lemma BoardAfterCastling(p: Position, m: Move)
    requires Consistent(p) && Allowed(p, m) && (m.flag.KingSide? || m.flag.QueenSide?)
    ensures Playable(p, m) && Castled(p.board, Make(p, m).board, m, p.turn)
  {
    MadeByRules(p, m, m.to);
    forall k | 0 <= k < 128
      ensures At(Make(p, m).board, k)
           == if k == m.from || k == HomeRook(p.turn, m.flag.KingSide?) then None
              else if k == m.to then Some(Piece(King, p.turn))
              else if k == (m.from + m.to) / 2 then Some(Piece(Rook, p.turn)) else At(p.board, k)
    {
      MadeByRules(p, m, k);
    }
  }

  lemma ThreatBeforeCastling(p: Position, m: Move, i: int)
    requires Consistent(p) && Allowed(p, m) && (m.flag.KingSide? || m.flag.QueenSide?) && Playable(p, m)
    requires Threatens(Make(p, m).board, Swap(p.turn), i, m.to)
    ensures Threatens(p.board, Swap(p.turn), i, m.to)
  {
    BoardAfterCastling(p, m);
    OpenBeforeCastling(p.board, Make(p, m).board, m, p.turn, i);
  }

  lemma OpenBeforeCastling(b: Board, c: Board, m: Move, color: Color, i: int)
    requires OnBoard(m.to) && (m.flag.KingSide? || m.flag.QueenSide?) && Castled(b, c, m, color)
    requires m.from == HomeKing(color) && m.to == (if m.flag.KingSide? then m.from + 2 else m.from - 2)
    requires Threatens(c, Swap(color), i, m.to)
    ensures Threatens(b, Swap(color), i, m.to)
  {
    assert At(b, i) == At(c, i);
    if OpenLine(c, i, m.to) && Aligned(Queen, Rank(i) - Rank(m.to), File(i) - File(m.to)) {
      LineBeforeCastling(b, c, m, color, i);
    }
  }

  lemma LineBeforeCastling(b: Board, c: Board, m: Move, color: Color, i: int)
    requires OnBoard(i) && OnBoard(m.to) && (m.flag.KingSide? || m.flag.QueenSide?) && Castled(b, c, m, color)
    requires m.from == HomeKing(color) && m.to == (if m.flag.KingSide? then m.from + 2 else m.from - 2)
    requires OpenLine(c, i, m.to) && Aligned(Queen, Rank(i) - Rank(m.to), File(i) - File(m.to))
    ensures OpenLine(b, i, m.to)
  {
    forall t: nat | 0 < t < Distance(Rank(i) - Rank(m.to), File(i) - File(m.to))
      ensures At(b, OnTheWay(i, m.to, t)).None?
    {
      assert At(c, OnTheWay(i, m.to, t)).None?;
      CastlingCovers(c, m, color, i, t);
    }
  }

  /** Neither the king's nor the rook's home lies on an open line to the king's new square. */
  lemma CastlingCovers(c: Board, m: Move, color: Color, i: int, t: nat)
    requires OnBoard(i) && OnBoard(m.to) && (m.flag.KingSide? || m.flag.QueenSide?)
    requires m.from == HomeKing(color) && m.to == (if m.flag.KingSide? then m.from + 2 else m.from - 2)
    requires Aligned(Queen, Rank(i) - Rank(m.to), File(i) - File(m.to)) && OpenLine(c, i, m.to)
    requires At(c, (m.from + m.to) / 2).Some? && 0 < t < Distance(Rank(i) - Rank(m.to), File(i) - File(m.to))
    ensures OnTheWay(i, m.to, t) != m.from && OnTheWay(i, m.to, t) != HomeRook(color, m.flag.KingSide?)
  {
    HomeRanks(m, color);
    if Rank(i) == Rank(m.to) {
      WayOnRank(i, m.to, t);
      RookIsLast(i, color, Rank(m.to));
      var middle := (m.from + m.to) / 2;
      if i < middle < m.to || m.to < middle < i {
        var u := if i < middle then middle - i else i - middle;
        WayOnRank(i, m.to, u);
      }
    } else {
      WayLeavesRank(i, m.to, t);
    }
  }

  lemma HomeRanks(m: Move, color: Color)
    requires m.from == HomeKing(color) && m.to == (if m.flag.KingSide? then m.from + 2 else m.from - 2)
    ensures Rank(m.from) == Rank(m.to) == Rank(HomeRook(color, true)) == Rank(HomeRook(color, false))
    ensures HomeRook(color, false) + 2 == m.to < m.from || m.from < m.to == HomeRook(color, true) - 1
    ensures m.flag.KingSide? <==> m.from < m.to
  {
  }

  /** The rooks stand at the ends of their rank. */
  lemma RookIsLast(i: int, color: Color, rank: int)
    requires OnBoard(i) && Rank(i) == rank == Rank(HomeKing(color))
    ensures HomeRook(color, false) <= i <= HomeRook(color, true)
  {
  }

  /** Along a rank the way goes through the squares between. */
  lemma WayOnRank(i: int, to: int, t: nat)
    requires OnBoard(i) && OnBoard(to) && Rank(i) == Rank(to)
    ensures OnTheWay(i, to, t) == if i < to then i + t else if i > to then i - t else i
    ensures Distance(Rank(i) - Rank(to), File(i) - File(to)) == if i < to then to - i else i - to
  {
    assert i == 16 * Rank(i) + File(i) && to == 16 * Rank(to) + File(to);
  }

  /** Before it ends, a way between two ranks does not come to the second. */
  lemma WayLeavesRank(i: int, to: int, t: nat)
    requires OnBoard(i) && OnBoard(to) && Rank(i) != Rank(to)
    requires Aligned(Queen, Rank(i) - Rank(to), File(i) - File(to))
    requires 0 < t < Distance(Rank(i) - Rank(to), File(i) - File(to))
    ensures Rank(OnTheWay(i, to, t)) != Rank(to)
  {
    var r, f := Rank(i) + Toward(Rank(to) - Rank(i), t), File(i) + Toward(File(to) - File(i), t);
    assert 0 <= f < 8 && OnTheWay(i, to, t) == 16 * r + f;
  }

  /** A pawn that may promote to one piece may promote to a queen, a rook, a bishop and a knight. */
  lemma PromotionChoices(p: Position, m: Move, k: Kind)
    requires Consistent(p) && Legal(p, m) && m.piece.Pawn? && (Rank(m.to) == RANK_8 || Rank(m.to) == RANK_1)
    ensures Legal(p, m.(promotion := Some(k))) <==> k in {Queen, Rook, Bishop, Knight}
  {
    var n := m.(promotion := Some(k));
    PseudoLegalIsAllowed(p, m);
    PseudoLegalIsAllowed(p, n);
    if k in {Queen, Rook, Bishop, Knight} {
      assert Allowed(p, n);
      SameAfterPromotion(p, m, n);
    }
  }

  lemma SameAfterPromotion(p: Position, m: Move, n: Move)
    requires Consistent(p) && Allowed(p, m) && Allowed(p, n) && m.piece.Pawn? && n == m.(promotion := n.promotion)
    ensures Playable(p, m) && Playable(p, n) && Make(p, n).kings == Make(p, m).kings
    ensures IsAttacked(Make(p, n).board, Swap(p.turn), Make(p, n).kings.Of(p.turn))
            <==> IsAttacked(Make(p, m).board, Swap(p.turn), Make(p, m).kings.Of(p.turn))
  {
    PseudoLegalIsAllowed(p, m);
    OwnKingOnBoard(p, m);
    BoardsAfterPromotion(p, m, n);
    var b, c := Make(p, m).board, Make(p, n).board;
    var king := Make(p, m).kings.Of(p.turn);
    if king == EMPTY {
      SameBeside(b, c, m.to, Swap(p.turn));
    } else {
      AttackedIsUnderAttack(b, Swap(p.turn), king);
      AttackedIsUnderAttack(c, Swap(p.turn), king);
      SameThreats(b, c, m.to, Swap(p.turn), king);
    }
  }

  lemma BoardsAfterPromotion(p: Position, m: Move, n: Move)
    requires Consistent(p) && Allowed(p, m) && Allowed(p, n) && m.piece.Pawn? && n == m.(promotion := n.promotion)
    ensures Playable(p, m) && Playable(p, n) && Make(p, n).kings == Make(p, m).kings
    ensures SameButOne(Make(p, m).board, Make(p, n).board, m.to, p.turn)
  {
    MadeByRules(p, m, m.to);
    MadeByRules(p, n, m.to);
    var b, c := Make(p, m).board, Make(p, n).board;
    forall i | 0 <= i < 128 && i != m.to ensures At(b, i) == At(c, i) {
      MadeByRules(p, m, i);
      MadeByRules(p, n, i);
    }
  }

  /** The same holds of the place beside the board. */
  lemma SameBeside(b: Board, c: Board, i: int, color: Color)
    requires SameButOne(b, c, i, Swap(color))
    ensures IsAttacked(b, color, EMPTY) <==> IsAttacked(c, color, EMPTY)
  {
    forall k ensures AttackedFrom(b, color, EMPTY, k) <==> AttackedFrom(c, color, EMPTY, k) {
    }
    if IsAttacked(b, color, EMPTY) {
      var k :| AttackedFrom(b, color, EMPTY, k);
      assert AttackedFrom(c, color, EMPTY, k);
    }
    if IsAttacked(c, color, EMPTY) {
      var k :| AttackedFrom(c, color, EMPTY, k);
      assert AttackedFrom(b, color, EMPTY, k);
    }
  }

  lemma OwnKingOnBoard(p: Position, m: Move)
    requires Consistent(p) && PseudoLegal(p, Safe(p), m)
    ensures Playable(p, m)
    ensures OnBoard(Make(p, m).kings.Of(p.turn)) || Make(p, m).kings.Of(p.turn) == EMPTY
  {
    PseudoLegalLands(p, Safe(p), m);
    MakePlaced(p, m);
    MakeKing(p, m, p.turn);
  }
}
