/** Chess positions (examples/chess-server/contract.canvas.js).  Squares are numbered in the
    0x88 scheme: sixteen to a rank, of which the first eight are on the board. */
module ChessBoard {
  import opened Options

  datatype Color = White | Black

  datatype Kind = Pawn | Knight | Bishop | Rook | Queen | King

  datatype Piece = Piece(kind: Kind, color: Color)

  type Board = b: seq<Option<Piece>> | |b| == 128 witness seq(128, i => None)

  const EMPTY := -1

  // Ranks as the program counts them, from the eighth down.
  const RANK_8 := 0
  const RANK_7 := 1
  const RANK_2 := 6
  const RANK_1 := 7

  const A8 := 0
  const H8 := 7
  const E8 := 4
  const A1 := 112
  const H1 := 119
  const E1 := 116

  function Swap(c: Color): Color {
    if c.White? then Black else White
  }

  /** `i & 0x88` is not zero: bit 3 or bit 7 of the two's complement of i is set. */
  predicate OffBoard(i: int) {
    (i / 8) % 2 == 1 || (i / 128) % 2 == 1
  }

  predicate OnBoard(i: int) {
    0 <= i < 128 && i % 16 < 8
  }

  /** For every square number a move or a loop can produce, the bit test finds exactly the
      squares beside, above and below the board. */
  lemma OffBoardExact(i: int)
    requires -128 <= i < 256
    ensures OffBoard(i) <==> !OnBoard(i)
  {
  }

  function Rank(i: int): int {
    i / 16
  }

  /** Reading a square; outside the array there is nothing. */
  function At(b: Board, i: int): Option<Piece> {
    if 0 <= i < 128 then b[i] else None
  }

  predicate Holds(b: Board, i: int, kind: Kind, color: Color) {
    At(b, i) == Some(Piece(kind, color))
  }

  /** One value for each side. */
  datatype Sides<T> = Sides(white: T, black: T) {
    function Of(c: Color): T {
      if c.White? then white else black
    }

    function With(c: Color, value: T): Sides<T> {
      if c.White? then Sides(value, black) else Sides(white, value)
    }
  }

  /** Castling rights of one side. */
  datatype Rights = Rights(kingSide: bool, queenSide: bool)

  datatype Position = Position(
    board: Board,
    kings: Sides<int>,
    turn: Color,
    castling: Sides<Rights>,
    epSquare: int,
    halfMoves: int,
    moveNumber: int)

  /** The direction in which pawns move. */
  function Forward(c: Color): int {
    if c.White? then -16 else 16
  }

  function HomeKing(c: Color): int {
    if c.White? then E1 else E8
  }

  function HomeRook(c: Color, kingSide: bool): int {
    if c.White? then (if kingSide then H1 else A1) else (if kingSide then H8 else A8)
  }

  // ----- consistent positions -----

  /** Nothing stands beside the board, and no pawn on the first or last rank. */
  ghost predicate Placed(b: Board) {
    forall i {:trigger b[i]} :: 0 <= i < 128 && b[i].Some? ==>
      OnBoard(i) && (b[i].value.kind.Pawn? ==> RANK_8 < Rank(i) < RANK_1)
  }

  /** The recorded square of a king is the square of the side's only king. */
  ghost predicate KingRecorded(b: Board, king: int, c: Color) {
    (king == EMPTY || Holds(b, king, King, c))
    && forall i {:trigger Holds(b, i, King, c)} :: Holds(b, i, King, c) ==> i == king
  }

  /** Castling rights imply that king and rook are at home. */
  ghost predicate RightsBacked(b: Board, king: int, rights: Rights, c: Color) {
    (rights.kingSide ==> king == HomeKing(c) && Holds(b, HomeRook(c, true), Rook, c))
    && (rights.queenSide ==> king == HomeKing(c) && Holds(b, HomeRook(c, false), Rook, c))
  }

  /** The en passant square is empty, and the enemy pawn that skipped it stands beyond. */
  ghost predicate EpBacked(b: Board, ep: int, turn: Color) {
    ep == EMPTY
    || (OnBoard(ep) && Rank(ep) == (if turn.White? then 2 else 5)
        && At(b, ep).None? && Holds(b, ep - Forward(turn), Pawn, Swap(turn)))
  }

  ghost predicate SideConsistent(p: Position, c: Color) {
    KingRecorded(p.board, p.kings.Of(c), c)
    && RightsBacked(p.board, p.kings.Of(c), p.castling.Of(c), c)
  }

  ghost predicate Consistent(p: Position) {
    Placed(p.board)
    && SideConsistent(p, White) && SideConsistent(p, Black)
    && EpBacked(p.board, p.epSquare, p.turn)
    && p.halfMoves >= 0 && p.moveNumber >= 1
  }
}
