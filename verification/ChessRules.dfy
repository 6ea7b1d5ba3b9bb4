/** The rules of chess in ranks and files, written without the generator's offsets and tables:
    what the generated moves are measured against. */
module ChessRules {
  import opened Options
  import opened ChessBoard
  import opened ChessMoves
  import opened ChessPlay
  import opened ChessTables
  import opened ChessAttacks
  import opened ChessGenerate
  import opened ChessConsistency

  /** One, as a step towards a difference, t times. */
  function Toward(d: int, t: nat): int {
    if d > 0 then t else if d < 0 then 0 - t else 0
  }

  /** The square t steps on the way from one square to another. */
  function OnTheWay(from: int, to: int, t: nat): int {
    16 * (Rank(from) + Toward(Rank(to) - Rank(from), t)) + File(from) + Toward(File(to) - File(from), t)
  }

  /** The squares strictly between two squares of a line are empty. */
  ghost predicate OpenLine(b: Board, from: int, to: int) {
    forall t: nat {:trigger OnTheWay(from, to, t)} ::
      0 < t < Distance(Rank(from) - Rank(to), File(from) - File(to)) ==> At(b, OnTheWay(from, to, t)).None?
  }

  /** The piece moves like this, and nothing is in its way. */
  ghost predicate Goes(b: Board, kind: Kind, from: int, to: int) {
    Aligned(kind, Rank(from) - Rank(to), File(from) - File(to))
    && (kind.Knight? || kind.King? || OpenLine(b, from, to))
  }

  /** White pawns go up the board, where ranks are counted from the eighth down. */
  function Up(c: Color): int {
    if c.White? then -1 else 1
  }

  ghost predicate Threatens(b: Board, color: Color, i: int, square: int) {
    OnBoard(i) && At(b, i).Some? && At(b, i).value.color == color
    && if At(b, i).value.kind.Pawn? then
         Rank(square) - Rank(i) == Up(color) && (File(square) - File(i) == 1 || File(square) - File(i) == -1)
       else Goes(b, At(b, i).value.kind, i, square)
  }

  /** Some piece of the colour could take on the square. */
  ghost predicate UnderAttack(b: Board, color: Color, square: int) {
    exists i :: Threatens(b, color, i, square)
  }

  // ----- the moves the rules allow -----

  /** What stands on the target is taken, and nothing else. */
  predicate Takes(p: Position, m: Move) {
    m.captured == if At(p.board, m.to).Some? then Some(At(p.board, m.to).value.kind) else None
  }

  ghost predicate PieceRule(p: Position, m: Move) {
    Goes(p.board, m.piece, m.from, m.to) && m.promotion.None? && Takes(p, m)
    && m.flag == (if At(p.board, m.to).Some? then Capture else Normal)
    && (At(p.board, m.to).Some? ==> At(p.board, m.to).value.color != p.turn)
  }

  predicate PawnRule(p: Position, m: Move) {
    var ranks, files := Rank(m.to) - Rank(m.from), File(m.to) - File(m.from);
    (if Rank(m.to) == RANK_8 || Rank(m.to) == RANK_1 then
       m.promotion in {Some(Queen), Some(Rook), Some(Bishop), Some(Knight)}
     else m.promotion.None?)
    && match m.flag
       case Normal =>
         files == 0 && ranks == Up(p.turn) && At(p.board, m.to).None? && m.captured.None?
       case BigPawn =>
         files == 0 && ranks == 2 * Up(p.turn) && Rank(m.from) == (if p.turn.White? then RANK_2 else RANK_7)
         && At(p.board, m.to).None? && At(p.board, (m.from + m.to) / 2).None? && m.captured.None?
       case Capture =>
         (files == 1 || files == -1) && ranks == Up(p.turn)
         && At(p.board, m.to).Some? && At(p.board, m.to).value.color != p.turn && Takes(p, m)
       case EpCapture =>
         (files == 1 || files == -1) && ranks == Up(p.turn) && m.to == p.epSquare && m.captured == Some(Pawn)
       case _ => false
  }

  /** The squares strictly between two squares of one rank are empty. */
  ghost predicate EmptyBetween(b: Board, one: int, two: int) {
    forall s :: one < s < two || two < s < one ==> At(b, s).None?
  }

  /** The right is held, the squares between king and rook are empty, and the king does not
      stand on, pass or reach an attacked square. */
  ghost predicate CastlingRule(p: Position, m: Move) {
    var kingSide := m.flag.KingSide?;
    m.piece.King? && m.promotion.None? && m.captured.None?
    && m.from == HomeKing(p.turn) && m.to == (if kingSide then m.from + 2 else m.from - 2)
    && (if kingSide then p.castling.Of(p.turn).kingSide else p.castling.Of(p.turn).queenSide)
    && EmptyBetween(p.board, m.from, HomeRook(p.turn, kingSide))
    && !UnderAttack(p.board, Swap(p.turn), m.from)
    && !UnderAttack(p.board, Swap(p.turn), (m.from + m.to) / 2)
    && !UnderAttack(p.board, Swap(p.turn), m.to)
  }

  ghost predicate Allowed(p: Position, m: Move) {
    OnBoard(m.from) && OnBoard(m.to) && m.color == p.turn && At(p.board, m.from) == Some(Piece(m.piece, p.turn))
    && if m.flag.KingSide? || m.flag.QueenSide? then CastlingRule(p, m)
       else if m.piece.Pawn? then PawnRule(p, m)
       else PieceRule(p, m)
  }

  // ----- attacks -----

  /** The ray of the tables is the way to the square. */
  lemma RayIsWay(i: int, square: int, t: nat)
    requires OnBoard(i) && OnBoard(square)
    ensures Step(i, -16 * Sign(Rank(i) - Rank(square)) - Sign(File(i) - File(square)), t) == OnTheWay(i, square, t)
  {
    RaySquare(i, Sign(Rank(i) - Rank(square)), Sign(File(i) - File(square)), t);
    assert i == 16 * Rank(i) + File(i);
  }

  lemma ClearIsOpen(b: Board, i: int, square: int)
    requires OnBoard(i) && OnBoard(square)
    ensures RayClear(b, i, square) <==> OpenLine(b, i, square)
  {
    var offset := -16 * Sign(Rank(i) - Rank(square)) - Sign(File(i) - File(square));
    forall t: nat ensures Step(i, offset, t) == OnTheWay(i, square, t) {
      RayIsWay(i, square, t);
    }
  }

  lemma ReachesIsGoes(b: Board, kind: Kind, i: int, square: int)
    requires OnBoard(i) && OnBoard(square) && !kind.Pawn?
    ensures Reaches(b, kind, i, square) <==> Goes(b, kind, i, square)
  {
    if SingleStep(kind) {
      StepperReaches(b, kind, i, square);
    } else {
      SliderReaches(b, kind, i, square);
      ClearIsOpen(b, i, square);
    }
  }

  lemma PawnThreatens(i: int, square: int, color: Color)
    requires OnBoard(i) && OnBoard(square)
    ensures (square == i + Forward(color) - 1 || square == i + Forward(color) + 1)
            <==> Rank(square) - Rank(i) == Up(color) && (File(square) - File(i) == 1 || File(square) - File(i) == -1)
  {
  }

  /** What the generator's own walk attacks is under attack by the rules. */
  lemma AttackedIsUnderAttack(b: Board, color: Color, square: int)
    requires OnBoard(square)
    ensures IsAttacked(b, color, square) <==> UnderAttack(b, color, square)
  {
    forall i ensures AttackedFrom(b, color, square, i) <==> Threatens(b, color, i, square) {
      if OnBoard(i) && At(b, i).Some? {
        PawnThreatens(i, square, color);
        if !At(b, i).value.kind.Pawn? {
          ReachesIsGoes(b, At(b, i).value.kind, i, square);
        }
      }
    }
    if IsAttacked(b, color, square) {
      var i :| AttackedFrom(b, color, square, i);
      assert Threatens(b, color, i, square);
    }
    if UnderAttack(b, color, square) {
      var i :| Threatens(b, color, i, square);
      assert AttackedFrom(b, color, square, i);
    }
  }

  // ----- moves -----

  /** The moves of `add_move`, told from their fields. */
  lemma AddedExactly(p: Position, i: int, to: int, flag: Flag, m: Move)
    requires At(p.board, i).Some?
    ensures m in AddMove(p, i, to, flag)
            <==> m == BuildMove(p, i, to, flag, m.promotion)
                 && (if Promotes(p, i, to) then
                       m.promotion in {Some(Queen), Some(Rook), Some(Bishop), Some(Knight)}
                     else m.promotion.None?)
  {
    var ms := AddMove(p, i, to, flag);
    if Promotes(p, i, to) {
      assert ms[0].promotion == Some(Queen) && ms[1].promotion == Some(Rook);
      assert ms[2].promotion == Some(Bishop) && ms[3].promotion == Some(Knight);
    }
  }

  lemma MoveFromExactly(p: Position, i: int, m: Move)
    ensures MoveFrom(p, i, m)
            <==> i == m.from && OnBoard(i) && Own(p, i) && Target(p, i, m.to, m.flag)
                 && m in AddMove(p, i, m.to, m.flag)
  {
    if MoveFrom(p, i, m) {
      var to, flag :| Target(p, i, to, flag) && m in AddMove(p, i, to, flag);
      AddedExactly(p, i, to, flag, m);
    }
  }

  lemma PieceByRules(p: Position, m: Move)
    requires Consistent(p) && OnBoard(m.from) && Own(p, m.from) && !At(p.board, m.from).value.kind.Pawn?
    ensures MoveFrom(p, m.from, m)
            <==> OnBoard(m.to) && m.color == p.turn && m.piece == At(p.board, m.from).value.kind && PieceRule(p, m)
  {
    MoveFromExactly(p, m.from, m);
    AddedExactly(p, m.from, m.to, m.flag, m);
    var kind := At(p.board, m.from).value.kind;
    if Reaches(p.board, kind, m.from, m.to) {
      assert OnBoard(m.to);
    }
    if OnBoard(m.to) {
      ReachesIsGoes(p.board, kind, m.from, m.to);
    }
  }

  /** The steps of a pawn, which is never on the first or last rank. */
  lemma PawnSteps(i: int, to: int, c: Color)
    requires OnBoard(i) && 0 < Rank(i) < 7
    ensures to == i + Forward(c) <==> OnBoard(to) && Rank(to) - Rank(i) == Up(c) && File(to) == File(i)
    ensures OnBoard(to) && (to == i + Forward(c) - 1 || to == i + Forward(c) + 1)
            <==> OnBoard(to) && Rank(to) - Rank(i) == Up(c) && (File(to) - File(i) == 1 || File(to) - File(i) == -1)
    ensures SecondRank(c, i) ==>
              (to == i + 2 * Forward(c) <==> OnBoard(to) && Rank(to) - Rank(i) == 2 * Up(c) && File(to) == File(i))
    ensures to == i + 2 * Forward(c) ==> (i + to) / 2 == i + Forward(c)
  {
  }

  lemma PawnByRules(p: Position, m: Move)
    requires Consistent(p) && OnBoard(m.from) && Own(p, m.from) && At(p.board, m.from).value.kind.Pawn?
    ensures MoveFrom(p, m.from, m) <==> OnBoard(m.to) && m.color == p.turn && m.piece.Pawn? && PawnRule(p, m)
  {
    MoveFromExactly(p, m.from, m);
    AddedExactly(p, m.from, m.to, m.flag, m);
    assert p.board[m.from].Some?;
    PawnTargetByRules(p, m.from, m.to, m.flag);
  }

  /** Where a pawn may go, by the kind of its move. */
  lemma PawnTargetByRules(p: Position, i: int, to: int, flag: Flag)
    requires Consistent(p) && OnBoard(i) && Own(p, i) && 0 < Rank(i) < 7
    ensures PawnTarget(p, i, to, flag)
            <==> var ranks, files := Rank(to) - Rank(i), File(to) - File(i);
                 OnBoard(to)
                 && match flag
                    case Normal => files == 0 && ranks == Up(p.turn) && At(p.board, to).None?
                    case BigPawn =>
                      files == 0 && ranks == 2 * Up(p.turn) && SecondRank(p.turn, i)
                      && At(p.board, to).None? && At(p.board, (i + to) / 2).None?
                    case Capture =>
                      (files == 1 || files == -1) && ranks == Up(p.turn)
                      && At(p.board, to).Some? && At(p.board, to).value.color != p.turn
                    case EpCapture =>
                      (files == 1 || files == -1) && ranks == Up(p.turn) && to == p.epSquare
                    case _ => false
  {
    PawnSteps(i, to, p.turn);
  }

  lemma EmptyToRook(b: Board, c: Color)
    ensures var king := HomeKing(c);
            EmptyBetween(b, king, HomeRook(c, true)) <==> At(b, king + 1).None? && At(b, king + 2).None?
    ensures var king := HomeKing(c);
            EmptyBetween(b, king, HomeRook(c, false))
            <==> At(b, king - 1).None? && At(b, king - 2).None? && At(b, king - 3).None?
  {
  }

  lemma CastleFields(p: Position, safe: int -> bool, m: Move)
    requires Consistent(p)
    ensures CastleMove(p, safe, m)
            <==> Castles(p, safe, m.flag) && m.color == p.turn && m.piece.King? && m.promotion.None?
                 && m.captured.None? && m.from == HomeKing(p.turn)
                 && m.to == (if m.flag.KingSide? then m.from + 2 else m.from - 2)
  {
    var king := p.kings.Of(p.turn);
    RightsPlaceKing(p);
    if At(p.board, king).Some? {
      AddedExactly(p, king, if m.flag.KingSide? then king + 2 else king - 2, m.flag, m);
    }
  }

  /** The conditions of castling, on the squares of the king's home. */
  ghost predicate MayCastle(p: Position, kingSide: bool) {
    var king, them, step := HomeKing(p.turn), Swap(p.turn), if kingSide then 1 else -1;
    (if kingSide then p.castling.Of(p.turn).kingSide else p.castling.Of(p.turn).queenSide)
    && EmptyBetween(p.board, king, HomeRook(p.turn, kingSide))
    && !UnderAttack(p.board, them, king) && !UnderAttack(p.board, them, king + step)
    && !UnderAttack(p.board, them, king + 2 * step)
  }

  lemma CastlesByRules(p: Position, flag: Flag)
    requires Consistent(p)
    ensures Castles(p, Safe(p), flag) <==> (flag.KingSide? || flag.QueenSide?) && MayCastle(p, flag.KingSide?)
  {
    RightsPlaceKing(p);
    EmptyToRook(p.board, p.turn);
    forall s | OnBoard(s) ensures Safe(p)(s) <==> !UnderAttack(p.board, Swap(p.turn), s) {
      AttackedIsUnderAttack(p.board, Swap(p.turn), s);
    }
  }

  lemma CastlingRuleFields(p: Position, m: Move)
    requires m.flag.KingSide? || m.flag.QueenSide?
    ensures CastlingRule(p, m)
            <==> m.piece.King? && m.promotion.None? && m.captured.None? && m.from == HomeKing(p.turn)
                 && m.to == (if m.flag.KingSide? then m.from + 2 else m.from - 2) && MayCastle(p, m.flag.KingSide?)
  {
  }

  lemma CastleByRules(p: Position, m: Move)
    requires Consistent(p)
    ensures CastleMove(p, Safe(p), m)
            <==> (m.flag.KingSide? || m.flag.QueenSide?) && OnBoard(m.from) && OnBoard(m.to) && m.color == p.turn
                 && At(p.board, m.from) == Some(Piece(m.piece, p.turn)) && CastlingRule(p, m)
  {
    RightsPlaceKing(p);
    CastleFields(p, Safe(p), m);
    CastlesByRules(p, m.flag);
    if m.flag.KingSide? || m.flag.QueenSide? {
      CastlingRuleFields(p, m);
    }
  }

  /** In a consistent position the generator's moves are exactly those the rules allow, before
      the safety of the own king is looked at. */
  lemma PseudoLegalIsAllowed(p: Position, m: Move)
    requires Consistent(p)
    ensures PseudoLegal(p, Safe(p), m) <==> Allowed(p, m)
  {
    CastleByRules(p, m);
    forall i ensures MoveFrom(p, i, m) ==> i == m.from {
      MoveFromExactly(p, i, m);
    }
    if OnBoard(m.from) && Own(p, m.from) {
      if At(p.board, m.from).value.kind.Pawn? {
        PawnByRules(p, m);
      } else {
        PieceByRules(p, m);
      }
    } else {
      MoveFromExactly(p, m.from, m);
    }
  }

  // ----- what a move does -----

  /** The board after an allowed move, square by square: the piece has gone from its square to
      the target, as what it promotes to; a pawn taken in passing is gone from beside the square
      the taking pawn left; in castling the rook has gone from its home to the square the king
      passed; nothing else has changed. */
  lemma MadeByRules(p: Position, m: Move, i: int)
    requires Consistent(p) && Allowed(p, m) && 0 <= i < 128
    ensures Playable(p, m)
    ensures At(Make(p, m).board, i)
         == if i == m.from then None
            else if i == m.to then Some(Piece(if m.promotion.Some? then m.promotion.value else m.piece, p.turn))
            else if m.flag.EpCapture? && Rank(i) == Rank(m.from) && File(i) == File(m.to) then None
            else if (m.flag.KingSide? || m.flag.QueenSide?) && i == HomeRook(p.turn, m.flag.KingSide?) then None
            else if (m.flag.KingSide? || m.flag.QueenSide?) && i == (m.from + m.to) / 2 then Some(Piece(Rook, p.turn))
            else At(p.board, i)
  {
    PseudoLegalIsAllowed(p, m);
    PseudoLegalLands(p, Safe(p), m);
    MakeAt(p, m, i);
    if m.flag.EpCapture? {
      PassedPawn(m.from, m.to, p.turn, i);
    }
    if m.flag.KingSide? || m.flag.QueenSide? {
      RookSquares(m, p.turn);
    }
  }

  lemma PassedPawn(from: int, to: int, c: Color, i: int)
    requires OnBoard(from) && OnBoard(to) && Rank(to) - Rank(from) == Up(c)
    ensures i == to - Forward(c) <==> Rank(i) == Rank(from) && File(i) == File(to)
  {
  }

  lemma RookSquares(m: Move, c: Color)
    requires m.from == HomeKing(c) && m.to == (if m.flag.KingSide? then m.from + 2 else m.from - 2)
    requires m.flag.KingSide? || m.flag.QueenSide?
    ensures RookMove(m) == (HomeRook(c, m.flag.KingSide?), (m.from + m.to) / 2)
  {
  }

  // ----- promotion -----

  /** The boards have the same pieces, except that one square holds two pieces of one colour. */
  ghost predicate SameButOne(b: Board, c: Board, i: int, color: Color) {
    (forall k :: k != i ==> At(b, k) == At(c, k))
    && At(b, i).Some? && At(c, i).Some? && At(b, i).value.color == color && At(c, i).value.color == color
  }

  /** What kind of own piece stands on a square makes no difference to the other side's attacks. */
  lemma SameThreats(b: Board, c: Board, i: int, color: Color, square: int)
    requires SameButOne(b, c, i, Swap(color)) && OnBoard(square)
    ensures UnderAttack(b, color, square) <==> UnderAttack(c, color, square)
  {
    forall k ensures Threatens(b, color, k, square) <==> Threatens(c, color, k, square) {
      SameWay(b, c, i, Swap(color), k, square);
    }
    if UnderAttack(b, color, square) {
      var k :| Threatens(b, color, k, square);
      assert Threatens(c, color, k, square);
    }
    if UnderAttack(c, color, square) {
      var k :| Threatens(c, color, k, square);
      assert Threatens(b, color, k, square);
    }
  }

  lemma SameWay(b: Board, c: Board, i: int, color: Color, from: int, to: int)
    requires SameButOne(b, c, i, color)
    ensures OpenLine(b, from, to) <==> OpenLine(c, from, to)
  {
    forall t: nat ensures At(b, OnTheWay(from, to, t)).None? <==> At(c, OnTheWay(from, to, t)).None? {
    }
  }
}
