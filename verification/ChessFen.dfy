/** Printing a position in Forsyth-Edwards notation (generate_fen), checking such text
    (validate_fen) and reading it (load). */
module ChessFen {
  import opened Options
  import opened Strings
  import opened ChessBoard

  // ----- printing -----

  function Letter(kind: Kind, color: Color): char {
    match kind
    case Pawn => if color.White? then 'P' else 'p'
    case Knight => if color.White? then 'N' else 'n'
    case Bishop => if color.White? then 'B' else 'b'
    case Rook => if color.White? then 'R' else 'r'
    case Queen => if color.White? then 'Q' else 'q'
    case King => if color.White? then 'K' else 'k'
  }

  /** The digit for a run of empty squares, if there is one. */
  function Count(empty: nat): string {
    if empty > 0 then Decimal(empty) else ""
  }

  /** The squares from i to the end of a rank, after `empty` empty squares. */
  function RunText(b: Board, i: nat, end: nat, empty: nat): string
    requires i <= end <= 128
    decreases end - i, b
  {
    if i == end then Count(empty)
    else if b[i].None? then RunText(b, i + 1, end, empty + 1)
    else Count(empty) + [Letter(b[i].value.kind, b[i].value.color)] + RunText(b, i + 1, end, 0)
  }

  function RankText(b: Board, r: nat): string
    requires r < 8
  {
    RunText(b, 16 * r, 16 * r + 8, 0)
  }

  /** The ranks from r on, separated by slashes. */
  function RanksText(b: Board, r: nat): string
    requires r < 8
    decreases 8 - r, b
  {
    if r == 7 then RankText(b, r) else RankText(b, r) + "/" + RanksText(b, r + 1)
  }

  function TurnText(c: Color): string {
    if c.White? then "w" else "b"
  }

  function FlagsText(whiteKing: bool, whiteQueen: bool, blackKing: bool, blackQueen: bool): string {
    (if whiteKing then "K" else "") + (if whiteQueen then "Q" else "")
    + (if blackKing then "k" else "") + (if blackQueen then "q" else "")
  }

  function CastlingText(castling: Sides<Rights>): string {
    var flags := FlagsText(
      castling.white.kingSide, castling.white.queenSide, castling.black.kingSide, castling.black.queenSide);
    if flags == "" then "-" else flags
  }

  const FILES := "abcdefgh"
  const RANKS := "87654321"

  function Algebraic(i: int): string
    requires OnBoard(i)
  {
    [FILES[i % 16], RANKS[i / 16]]
  }

  function EpText(ep: int): string {
    if OnBoard(ep) then Algebraic(ep) else "-"
  }

  /** A number as JavaScript prints it. */
  function NumberText(n: int): string {
    if n >= 0 then Decimal(n) else "-" + Decimal(0 - n)
  }

  function Fields(p: Position): seq<string> {
    [RanksText(p.board, 0), TurnText(p.turn), CastlingText(p.castling), EpText(p.epSquare),
     NumberText(p.halfMoves), NumberText(p.moveNumber)]
  }

  function Joined(fields: seq<string>): string
    requires fields != []
  {
    if |fields| == 1 then fields[0] else fields[0] + " " + Joined(fields[1..])
  }

  function Fen(p: Position): string {
    Joined(Fields(p))
  }

  /** One turn of the printing loop: the text it adds, where it goes on, and the empty
      squares it has counted. */
  function PrintStep(b: Board, i: nat, empty: nat): (step: (string, nat, nat))
    requires i <= H1 && i % 16 < 8
    ensures i < step.1 <= 128 && step.1 % 16 < 8
  {
    var (text, counted) := SquareText(b[i], empty);
    if i % 16 == 7 then (text + EndText(i, counted), i + 9, 0) else (text, i + 1, counted)
  }

  /** The text of one square, and the empty squares counted after it. */
  function SquareText(square: Option<Piece>, empty: nat): (string, nat) {
    if square.None? then ("", empty + 1) else (Count(empty) + [Letter(square.value.kind, square.value.color)], 0)
  }

  /** The text after the last square of a rank. */
  function EndText(i: nat, empty: nat): string {
    Count(empty) + if i != H1 then "/" else ""
  }

  /** The text from square i on, when `empty` empty squares precede it. */
  function TextFrom(b: Board, i: nat, empty: nat): string
    requires i <= 128 && i % 16 < 8
    decreases 128 - i, b
  {
    if i > H1 then ""
    else
      var (text, next, counted) := PrintStep(b, i, empty);
      text + TextFrom(b, next, counted)
  }

  lemma Associate(a: string, b: string, c: string)
    ensures a + b + c == a + (b + c)
  {
  }

  method PrintSquare(square: Option<Piece>, empty: nat, fen: string) returns (fen': string, empty': nat)
    ensures fen' == fen + SquareText(square, empty).0 && empty' == SquareText(square, empty).1
  {
    fen', empty' := fen, empty;
    if square.None? {
      empty' := empty' + 1;
    } else {
      if empty' > 0 {
        fen' := fen' + Decimal(empty');
        empty' := 0;
      }
      fen' := fen' + [Letter(square.value.kind, square.value.color)];
    }
  }

  method PrintEnd(i: nat, empty: nat, fen: string) returns (fen': string)
    ensures fen' == fen + EndText(i, empty)
  {
    fen' := fen;
    if empty > 0 {
      fen' := fen' + Decimal(empty);
    }
    if i != H1 {
      fen' := fen' + "/";
    }
  }

  /** The body of the loop. */
  method PrintTurn(b: Board, i: nat, empty: nat, fen: string) returns (fen': string, i': nat, empty': nat)
    requires i <= H1 && i % 16 < 8
    ensures var (text, next, counted) := PrintStep(b, i, empty); fen' == fen + text && i' == next && empty' == counted
  {
    i' := i;
    fen', empty' := PrintSquare(b[i], empty, fen);
    OffBoardExact(i + 1);
    if OffBoard(i + 1) {
      Associate(fen, SquareText(b[i], empty).0, EndText(i, empty'));
      fen' := PrintEnd(i, empty', fen');
      empty' := 0;
      i' := i' + 8;
    }
    i' := i' + 1;
  }

  /** The loop over the squares, which counts empty squares and skips those beside the board. */
  method PrintRanks(b: Board) returns (fen: string)
    ensures fen == RanksText(b, 0)
  {
    TextIsRanks(b, 0);
    fen := "";
    var empty: nat, i: nat := 0, A8;
    while i <= H1
      invariant i <= 128 && i % 16 < 8
      invariant fen + TextFrom(b, i, empty) == TextFrom(b, 0, 0)
    {
      ghost var (text, next, counted) := PrintStep(b, i, empty);
      Associate(fen, text, TextFrom(b, next, counted));
      fen, i, empty := PrintTurn(b, i, empty, fen);
    }
  }

  /** What follows the text of rank r. */
  function AfterRank(b: Board, r: nat): string
    requires r < 8
  {
    if r == 7 then "" else "/" + TextFrom(b, 16 * r + 16, 0)
  }

  ghost predicate RunThenRest(b: Board, r: nat, i: nat, empty: nat)
    requires r < 8 && 16 * r <= i < 16 * r + 8
  {
    TextFrom(b, i, empty) == RunText(b, i, 16 * r + 8, empty) + AfterRank(b, r)
  }

  lemma FileIs(r: nat, i: nat)
    requires 16 * r <= i < 16 * r + 8
    ensures i % 16 == i - 16 * r && i / 16 == r
  {
  }

  lemma InnerSquare(b: Board, r: nat, i: nat, empty: nat)
    requires r < 8 && 16 * r <= i < 16 * r + 7 && RunThenRest(b, r, i + 1, SquareText(b[i], empty).1)
    ensures RunThenRest(b, r, i, empty)
  {
  }

  lemma LastSquare(b: Board, r: nat, empty: nat)
    requires r < 8
    ensures RunThenRest(b, r, 16 * r + 7, empty)
  {
    var i := 16 * r + 7;
    var text, counted := SquareText(b[i], empty).0, SquareText(b[i], empty).1;
    FileIs(r, i);
    FileIs(r + 1, i + 9);
    TextStep(b, i, empty);
    RunStep(b, i, i + 1, empty);
    JoinLast(TextFrom(b, i, empty), RunText(b, i, i + 1, empty), text, Count(counted), i,
      TextFrom(b, i + 9, 0), AfterRank(b, r));
  }

  /** The text of a rank from square i on. */
  lemma {:induction false} TextIsRun(b: Board, r: nat, i: nat, empty: nat)
    requires r < 8 && 16 * r <= i < 16 * r + 8
    ensures RunThenRest(b, r, i, empty)
    decreases 16 * r + 8 - i
  {
    if i < 16 * r + 7 {
      TextIsRun(b, r, i + 1, SquareText(b[i], empty).1);
      InnerSquare(b, r, i, empty);
    } else {
      LastSquare(b, r, empty);
    }
  }

  lemma JoinLast(t: string, run: string, text: string, count: string, i: nat, next: string, after: string)
    requires t == text + (count + if i != H1 then "/" else "") + next && run == text + count
    requires after == if i == H1 then "" else "/" + next
    requires i == H1 ==> next == ""
    ensures t == run + after
  {
  }

  lemma TextStep(b: Board, i: nat, empty: nat)
    requires i <= H1 && i % 16 < 8
    ensures i % 16 < 7 ==>
              TextFrom(b, i, empty) == SquareText(b[i], empty).0 + TextFrom(b, i + 1, SquareText(b[i], empty).1)
    ensures i % 16 == 7 ==>
              TextFrom(b, i, empty)
              == SquareText(b[i], empty).0 + EndText(i, SquareText(b[i], empty).1) + TextFrom(b, i + 9, 0)
    ensures i == H1 ==> TextFrom(b, i + 9, 0) == ""
  {
  }

  lemma RunStep(b: Board, i: nat, end: nat, empty: nat)
    requires i < end <= 128
    ensures RunText(b, i, end, empty)
         == SquareText(b[i], empty).0
            + if i + 1 == end then Count(SquareText(b[i], empty).1)
              else RunText(b, i + 1, end, SquareText(b[i], empty).1)
  {
  }

  lemma {:induction false} TextIsRanks(b: Board, r: nat)
    requires r < 8
    ensures TextFrom(b, 16 * r, 0) == RanksText(b, r)
    decreases 8 - r
  {
    TextIsRun(b, r, 16 * r, 0);
    if r < 7 {
      TextIsRanks(b, r + 1);
      Associate(RankText(b, r), "/", RanksText(b, r + 1));
    }
  }
}
