/** The pseudo-legal moves of a position (generate_moves). */
module ChessMoves {
  import opened Options
  import opened ChessBoard

  /** The one basic flag of a move.  The PROMOTION flag is set exactly if there is a promotion. */
  datatype Flag = Normal | Capture | BigPawn | EpCapture | KingSide | QueenSide

  datatype Move = Move(
    color: Color, from: int, to: int, flag: Flag, piece: Kind, promotion: Option<Kind>, captured: Option<Kind>)

  function Offsets(kind: Kind): seq<int> {
    match kind
    case Knight => [-18, -33, -31, -14, 18, 33, 31, 14]
    case Bishop => [-17, -15, 17, 15]
    case Rook => [-16, 1, 16, -1]
    case Queen => [-17, -16, -15, 1, 17, 16, 15, -1]
    case King => [-17, -16, -15, 1, 17, 16, 15, -1]
    case Pawn => []
  }

  predicate SingleStep(kind: Kind) {
    kind.Knight? || kind.King?
  }

  /** The square n steps away. */
  function Step(from: int, offset: int, n: nat): int {
    if n == 0 then from else Step(from, offset, n - 1) + offset
  }

  /** Walking n steps in one direction over empty squares of the board, to a square of the board. */
  predicate Walk(b: Board, from: int, offset: int, n: nat) {
    n >= 1 && OnBoard(Step(from, offset, n))
    && forall k: nat {:trigger Step(from, offset, k)} :: 1 <= k < n ==>
         OnBoard(Step(from, offset, k)) && At(b, Step(from, offset, k)).None?
  }

  /** A piece other than a pawn can walk to a square. */
  ghost predicate Reaches(b: Board, kind: Kind, from: int, to: int) {
    exists offset, n: nat :: offset in Offsets(kind) && WalksTo(b, kind, from, offset, n, to)
  }

  predicate WalksTo(b: Board, kind: Kind, from: int, offset: int, n: nat, to: int) {
    Walk(b, from, offset, n) && Step(from, offset, n) == to && (SingleStep(kind) ==> n == 1)
  }

  // ----- building moves -----

  function BuildMove(p: Position, from: int, to: int, flag: Flag, promotion: Option<Kind>): Move
    requires At(p.board, from).Some?
  {
    Move(p.turn, from, to, flag, At(p.board, from).value.kind, promotion,
         if At(p.board, to).Some? then Some(At(p.board, to).value.kind)
         else if flag.EpCapture? then Some(Pawn) else None)
  }

  predicate Promotes(p: Position, from: int, to: int)
    requires At(p.board, from).Some?
  {
    At(p.board, from).value.kind.Pawn? && (Rank(to) == RANK_8 || Rank(to) == RANK_1)
  }

  const PROMOTIONS: seq<Kind> := [Queen, Rook, Bishop, Knight]

  /** `add_move`: one move, or one for each promotion. */
  function AddMove(p: Position, from: int, to: int, flag: Flag): seq<Move>
    requires At(p.board, from).Some?
  {
    if Promotes(p, from, to) then
      seq(4, i requires 0 <= i < 4 => BuildMove(p, from, to, flag, Some(PROMOTIONS[i])))
    else [BuildMove(p, from, to, flag, None)]
  }

  // ----- which moves there are -----

  predicate Enemy(p: Position, i: int) {
    At(p.board, i).Some? && At(p.board, i).value.color == Swap(p.turn)
  }

  predicate Own(p: Position, i: int) {
    At(p.board, i).Some? && At(p.board, i).value.color == p.turn
  }

  predicate SecondRank(c: Color, i: int) {
    Rank(i) == if c.White? then RANK_2 else RANK_7
  }

  /** A pawn of the side to move may go from i to `to`. */
  predicate PawnTarget(p: Position, i: int, to: int, flag: Flag) {
    var f := Forward(p.turn);
    match flag
    case Normal => to == i + f && At(p.board, to).None?
    case BigPawn => to == i + 2 * f && SecondRank(p.turn, i) && At(p.board, i + f).None? && At(p.board, to).None?
    case Capture => (to == i + f - 1 || to == i + f + 1) && OnBoard(to) && Enemy(p, to)
    case EpCapture => (to == i + f - 1 || to == i + f + 1) && OnBoard(to) && !Enemy(p, to) && to == p.epSquare
    case _ => false
  }

  ghost predicate PieceTarget(p: Position, i: int, to: int, flag: Flag)
    requires At(p.board, i).Some?
  {
    Reaches(p.board, At(p.board, i).value.kind, i, to)
    && ((flag.Normal? && At(p.board, to).None?) || (flag.Capture? && At(p.board, to).Some? && !Own(p, to)))
  }

  ghost predicate Target(p: Position, i: int, to: int, flag: Flag)
    requires At(p.board, i).Some?
  {
    if At(p.board, i).value.kind.Pawn? then PawnTarget(p, i, to, flag) else PieceTarget(p, i, to, flag)
  }

  /** The moves of the piece on square i. */
  ghost predicate MoveFrom(p: Position, i: int, m: Move) {
    OnBoard(i) && Own(p, i) && exists to, flag :: Target(p, i, to, flag) && m in AddMove(p, i, to, flag)
  }

  /** The king may castle: the right is there, the squares between are empty, and the
      squares the king stands on, passes and reaches are safe. */
  predicate Castles(p: Position, safe: int -> bool, flag: Flag) {
    var king := p.kings.Of(p.turn);
    match flag
    case KingSide =>
      p.castling.Of(p.turn).kingSide && At(p.board, king + 1).None? && At(p.board, king + 2).None?
      && safe(king) && safe(king + 1) && safe(king + 2)
    case QueenSide =>
      p.castling.Of(p.turn).queenSide
      && At(p.board, king - 1).None? && At(p.board, king - 2).None? && At(p.board, king - 3).None?
      && safe(king) && safe(king - 1) && safe(king - 2)
    case _ => false
  }

  predicate CastleMove(p: Position, safe: int -> bool, m: Move) {
    var king := p.kings.Of(p.turn);
    At(p.board, king).Some? && Castles(p, safe, m.flag)
    && m in AddMove(p, king, if m.flag.KingSide? then king + 2 else king - 2, m.flag)
  }

  /** A pseudo-legal move; `safe` tells which squares the other side does not attack. */
  ghost predicate PseudoLegal(p: Position, safe: int -> bool, m: Move) {
    (exists i :: MoveFrom(p, i, m)) || CastleMove(p, safe, m)
  }
}
