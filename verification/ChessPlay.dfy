/** Making and undoing moves (make_move and undo_move). */
module ChessPlay {
  import opened Options
  import opened ChessBoard
  import opened ChessMoves

  /** The squares a move touches exist, and there is a piece to move. */
  predicate Playable(p: Position, m: Move) {
    0 <= m.from < 128 && 0 <= m.to < 128 && At(p.board, m.from).Some?
    && (m.flag.EpCapture? ==> 0 <= m.to - Forward(p.turn) < 128)
    && (m.flag.KingSide? || m.flag.QueenSide? ==> 2 <= m.to < 127)
  }

  /** The board after the piece has moved, an en passant capture has been removed and a
      promoted pawn replaced. */
  function Moved(p: Position, m: Move): Board
    requires Playable(p, m)
  {
    var b := p.board[m.to := p.board[m.from]][m.from := None];
    var c := if m.flag.EpCapture? then b[m.to - Forward(p.turn) := None] else b;
    if m.promotion.Some? then c[m.to := Some(Piece(m.promotion.value, p.turn))] else c
  }

  /** The squares between which castling moves the rook. */
  function RookMove(m: Move): (int, int) {
    if m.flag.KingSide? then (m.to + 1, m.to - 1) else (m.to - 2, m.to + 1)
  }

  function WithRook(b: Board, m: Move): Board
    requires m.flag.KingSide? || m.flag.QueenSide? ==> 2 <= m.to < 127
  {
    if m.flag.KingSide? || m.flag.QueenSide? then
      var (from, to) := RookMove(m);
      b[to := b[from]][from := None]
    else b
  }

  predicate KingMoved(b: Board, m: Move) {
    At(b, m.to).Some? && At(b, m.to).value.kind.King?
  }

  /** The right that depends on the rook of a square is lost; of two rights the queen's side
      is looked at first, and only one can be lost to one square. */
  function Losing(rights: Rights, c: Color, square: int): Rights {
    if square == HomeRook(c, false) && rights.queenSide then rights.(queenSide := false)
    else if square == HomeRook(c, true) && rights.kingSide then rights.(kingSide := false)
    else rights
  }

  /** The rights left after a move of one side. */
  function RightsLeft(castling: Sides<Rights>, us: Color, m: Move, kingMoved: bool): Sides<Rights> {
    var them := Swap(us);
    var ours := if kingMoved then Rights(false, false) else Losing(castling.Of(us), us, m.from);
    castling.With(us, ours).With(them, Losing(castling.Of(them), them, m.to))
  }

  /** The position after a move. */
  function Make(p: Position, m: Move): Position
    requires Playable(p, m)
  {
    var b := Moved(p, m);
    var kingMoved := KingMoved(b, m);
    Position(
      if kingMoved then WithRook(b, m) else b,
      if kingMoved then p.kings.With(b[m.to].value.color, m.to) else p.kings,
      Swap(p.turn),
      RightsLeft(p.castling, p.turn, m, kingMoved),
      if m.flag.BigPawn? then m.to - Forward(p.turn) else EMPTY,
      if m.piece.Pawn? || m.flag.Capture? || m.flag.EpCapture? then 0 else p.halfMoves + 1,
      if p.turn.Black? then p.moveNumber + 1 else p.moveNumber)
  }

  /** What `push` keeps of a position: all but the board. */
  datatype Entry = Entry(
    move: Move, kings: Sides<int>, turn: Color, castling: Sides<Rights>, epSquare: int, halfMoves: int, moveNumber: int)

  function EntryOf(p: Position, m: Move): Entry {
    Entry(m, p.kings, p.turn, p.castling, p.epSquare, p.halfMoves, p.moveNumber)
  }

  /** The entry's move can be taken back on a board. */
  predicate Undoable(b: Board, e: Entry) {
    var m := e.move;
    0 <= m.from < 128 && 0 <= m.to < 128 && At(b, m.to).Some?
    && (m.flag.Capture? ==> m.captured.Some?)
    && (m.flag.EpCapture? ==> 0 <= m.to - Forward(e.turn) < 128)
    && (m.flag.KingSide? || m.flag.QueenSide? ==> 2 <= m.to < 127)
  }

  function UndoneBoard(b: Board, e: Entry): Board
    requires Undoable(b, e)
  {
    var m, them := e.move, Swap(e.turn);
    var c := b[m.from := Some(Piece(m.piece, b[m.to].value.color))][m.to := None];
    var d := if m.flag.Capture? then c[m.to := Some(Piece(m.captured.value, them))]
             else if m.flag.EpCapture? then c[m.to - Forward(e.turn) := Some(Piece(Pawn, them))]
             else c;
    if m.flag.KingSide? || m.flag.QueenSide? then
      var (to, from) := RookMove(m);
      d[to := d[from]][from := None]
    else d
  }

  function Undone(b: Board, e: Entry): Position
    requires Undoable(b, e)
  {
    Position(UndoneBoard(b, e), e.kings, e.turn, e.castling, e.epSquare, e.halfMoves, e.moveNumber)
  }

  /** What undoing relies on: the moving piece is the mover's and what the move records, and
      the captured piece stands where undoing will put it. */
  predicate Recoverable(p: Position, m: Move) {
    Playable(p, m) && m.from != m.to
    && Holds(p.board, m.from, m.piece, p.turn)
    && (m.promotion.Some? ==> m.piece.Pawn? && !m.promotion.value.King?)
    && match m.flag
       case Capture => m.captured.Some? && Holds(p.board, m.to, m.captured.value, Swap(p.turn))
       case EpCapture =>
         m.piece.Pawn? && At(p.board, m.to).None? && Holds(p.board, m.to - Forward(p.turn), Pawn, Swap(p.turn))
         && m.from != m.to - Forward(p.turn)
       case KingSide =>
         m.piece.King? && m.to == m.from + 2 && m.promotion.None?
         && At(p.board, m.to).None? && At(p.board, m.to - 1).None?
       case QueenSide =>
         m.piece.King? && m.to == m.from - 2 && m.promotion.None?
         && At(p.board, m.to).None? && At(p.board, m.to + 1).None?
       case _ => At(p.board, m.to).None?
  }

  /** Undoing a made move restores the whole position. */
  lemma UndoMake(p: Position, m: Move)
    requires Recoverable(p, m)
    ensures Undoable(Make(p, m).board, EntryOf(p, m))
    ensures Undone(Make(p, m).board, EntryOf(p, m)) == p
  {
    var b := Make(p, m).board;
    UndoMakeBoard(p, m);
  }

  lemma UndoMakeBoard(p: Position, m: Move)
    requires Recoverable(p, m)
    ensures Undoable(Make(p, m).board, EntryOf(p, m))
    ensures UndoneBoard(Make(p, m).board, EntryOf(p, m)) == p.board
  {
  }

  // ----- every pseudo-legal move can be undone -----

  lemma AddedMove(p: Position, from: int, to: int, flag: Flag, m: Move)
    requires At(p.board, from).Some? && m in AddMove(p, from, to, flag)
    ensures m == BuildMove(p, from, to, flag, m.promotion)
    ensures m.promotion.Some? <==> Promotes(p, from, to)
    ensures m.promotion.Some? ==> m.promotion.value in PROMOTIONS
  {
  }

  lemma NoKingPromotion(kind: Kind)
    requires kind in PROMOTIONS
    ensures !kind.King? && !kind.Pawn?
  {
  }

  lemma PawnMoveRecoverable(p: Position, i: int, to: int, flag: Flag, m: Move)
    requires Consistent(p) && OnBoard(i) && Own(p, i) && At(p.board, i).value.kind.Pawn?
    requires PawnTarget(p, i, to, flag) && m in AddMove(p, i, to, flag)
    ensures Recoverable(p, m)
  {
    AddedMove(p, i, to, flag, m);
    if m.promotion.Some? {
      NoKingPromotion(m.promotion.value);
    }
    assert p.board[i].Some? && RANK_8 < Rank(i) < RANK_1;
  }

  lemma PieceMoveRecoverable(p: Position, i: int, to: int, flag: Flag, m: Move)
    requires Consistent(p) && OnBoard(i) && Own(p, i) && !At(p.board, i).value.kind.Pawn?
    requires PieceTarget(p, i, to, flag) && m in AddMove(p, i, to, flag)
    ensures Recoverable(p, m)
  {
  }

  lemma CastleRecoverable(p: Position, safe: int -> bool, m: Move)
    requires Consistent(p) && CastleMove(p, safe, m)
    ensures Recoverable(p, m)
    ensures m.from == HomeKing(p.turn) && RookMove(m).0 == HomeRook(p.turn, m.flag.KingSide?)
  {
  }

  lemma PseudoLegalRecoverable(p: Position, safe: int -> bool, m: Move)
    requires Consistent(p) && PseudoLegal(p, safe, m)
    ensures Recoverable(p, m)
  {
    if CastleMove(p, safe, m) {
      CastleRecoverable(p, safe, m);
    } else {
      var i :| MoveFrom(p, i, m);
      var to, flag :| Target(p, i, to, flag) && m in AddMove(p, i, to, flag);
      if At(p.board, i).value.kind.Pawn? {
        PawnMoveRecoverable(p, i, to, flag, m);
      } else {
        PieceMoveRecoverable(p, i, to, flag, m);
      }
    }
  }

  /** Undoing any pseudo-legal move from a consistent position restores board, kings,
      rights, en passant square, counters and turn exactly. */
  lemma UndoRestores(p: Position, safe: int -> bool, m: Move)
    requires Consistent(p) && PseudoLegal(p, safe, m)
    ensures Playable(p, m) && Undoable(Make(p, m).board, EntryOf(p, m))
    ensures Undone(Make(p, m).board, EntryOf(p, m)) == p
  {
    PseudoLegalRecoverable(p, safe, m);
    UndoMake(p, m);
  }
}
