/** Checking and reading Forsyth-Edwards notation (validate_fen, load and put). */
module ChessLoad {
  import opened Options
  import opened Strings
  import opened ChessBoard
  import opened ChessFen

  // ----- tokens -----

  /** The characters `\\s` matches. */
  predicate IsSpace(c: char) {
    var n := c as int;
    9 <= n <= 13 || n == 32 || n == 0xa0 || n == 0x1680 || 0x2000 <= n <= 0x200a
    || n == 0x2028 || n == 0x2029 || n == 0x202f || n == 0x205f || n == 0x3000 || n == 0xfeff
  }

  function DropSpaces(s: string): (t: string)
    ensures |t| <= |s|
    ensures s != "" && !IsSpace(s[0]) ==> t == s
  {
    if s != "" && IsSpace(s[0]) then DropSpaces(s[1..]) else s
  }

  /** `split(/\\s+/)`. */
  function Tokens(s: string): (tokens: seq<string>)
    ensures tokens != []
    decreases |s|
  {
    if s == "" then [""]
    else if IsSpace(s[0]) then [""] + Tokens(DropSpaces(s[1..]))
    else
      var rest := Tokens(s[1..]);
      [[s[0]] + rest[0]] + rest[1..]
  }

  // ----- numbers -----

  predicate IsDigit(c: char) {
    '0' <= c <= '9'
  }

  predicate IsHexDigit(c: char) {
    IsDigit(c) || 'a' <= c <= 'f' || 'A' <= c <= 'F'
  }

  function DigitsPrefix(s: string): (d: string)
    ensures forall c :: c in d ==> IsDigit(c)
  {
    if s == "" || !IsDigit(s[0]) then "" else [s[0]] + DigitsPrefix(s[1..])
  }

  function Unsigned(s: string): string {
    if s != "" && (s[0] == '-' || s[0] == '+') then s[1..] else s
  }

  /** `parseInt(s, 10)`; None is NaN.  Tokens have no leading spaces. */
  function ParseInt(s: string): Option<int> {
    var d := DigitsPrefix(Unsigned(s));
    if d == "" then None else Some(if s[0] == '-' then 0 - ReadDecimal(d) else ReadDecimal(d))
  }

  /** `!isNaN(parseInt(s))`, which also takes hexadecimal digits after 0x. */
  predicate ParsesToNumber(s: string) {
    var t := Unsigned(s);
    if |t| >= 2 && t[0] == '0' && (t[1] == 'x' || t[1] == 'X') then |t| >= 3 && IsHexDigit(t[2])
    else DigitsPrefix(t) != ""
  }

  // ----- validation -----

  function PieceOf(c: char): Option<Piece> {
    match c
    case 'P' => Some(Piece(Pawn, White))   case 'p' => Some(Piece(Pawn, Black))
    case 'N' => Some(Piece(Knight, White)) case 'n' => Some(Piece(Knight, Black))
    case 'B' => Some(Piece(Bishop, White)) case 'b' => Some(Piece(Bishop, Black))
    case 'R' => Some(Piece(Rook, White))   case 'r' => Some(Piece(Rook, Black))
    case 'Q' => Some(Piece(Queen, White))  case 'q' => Some(Piece(Queen, Black))
    case 'K' => Some(Piece(King, White))   case 'k' => Some(Piece(King, Black))
    case _ => None
  }

  /** The check of a row from a character on; 0 if there is no error. */
  function RowError(row: string, sum: int, previousWasNumber: bool): nat {
    if row == "" then (if sum != 8 then 10 else 0)
    else if IsDigit(row[0]) then
      if previousWasNumber then 8 else RowError(row[1..], sum + (row[0] as int - 48), true)
    else if PieceOf(row[0]).None? then 9
    else RowError(row[1..], sum + 1, false)
  }

  /** The first error among the rows. */
  function RowsError(rows: seq<string>): nat {
    if rows == [] then 0
    else if RowError(rows[0], 0, false) != 0 then RowError(rows[0], 0, false)
    else RowsError(rows[1..])
  }

  predicate EpField(s: string) {
    s == "-" || (|s| == 2 && 'a' <= s[0] <= 'h' && (s[1] == '3' || s[1] == '6'))
  }

  /** A dash, or some of KQkq in this order. */
  predicate CastlingField(s: string) {
    s == "-" || (s != "" && s == FlagsText('K' in s, 'Q' in s, 'k' in s, 'q' in s))
  }

  /** The error number `validate_fen` reports; 0 for a valid text. */
  function FenError(fen: string): nat {
    var tokens := Tokens(fen);
    if |tokens| != 6 then 1
    else if !ParsesToNumber(tokens[5]) || ParseInt(tokens[5]).None? || ParseInt(tokens[5]).value <= 0 then 2
    else if !ParsesToNumber(tokens[4]) || ParseInt(tokens[4]).None? || ParseInt(tokens[4]).value < 0 then 3
    else if !EpField(tokens[3]) then 4
    else if !CastlingField(tokens[2]) then 5
    else if tokens[1] != "w" && tokens[1] != "b" then 6
    else if |Split(tokens[0], '/')| != 8 then 7
    else if RowsError(Split(tokens[0], '/')) != 0 then RowsError(Split(tokens[0], '/'))
    else if |tokens[3]| == 2
            && ((tokens[3][1] == '3' && tokens[1] == "w") || (tokens[3][1] == '6' && tokens[1] == "b")) then 11
    else 0
  }

  // ----- reading -----

  /** The board being set up, the kings placed so far and the next square. */
  datatype Setup = Setup(board: Board, kings: Sides<int>, square: int)

  /** `put`: refuses squares beside the board and a second king. */
  function Put(s: Setup, piece: Piece): Setup {
    if !OnBoard(s.square) then s
    else if piece.kind.King? && s.kings.Of(piece.color) != EMPTY && s.kings.Of(piece.color) != s.square then s
    else s.(board := s.board[s.square := Some(piece)],
            kings := if piece.kind.King? then s.kings.With(piece.color, s.square) else s.kings)
  }

  function ReadChar(s: Setup, c: char): Setup {
    if c == '/' then s.(square := s.square + 8)
    else if IsDigit(c) then s.(square := s.square + (c as int - 48))
    else if PieceOf(c).None? then s.(square := s.square + 1)
    else
      var t := Put(s, PieceOf(c).value);
      t.(square := t.square + 1)
  }

  function ReadRanks(text: string, s: Setup): Setup {
    if text == "" then s else ReadRanks(text[1..], ReadChar(s, text[0]))
  }

  function NoPieces(): (b: Board)
    ensures forall i :: 0 <= i < 128 ==> b[i] == None
  {
    seq(128, i => None)
  }

  /** What `clear` leaves. */
  function Cleared(): Setup {
    Setup(NoPieces(), Sides(EMPTY, EMPTY), 0)
  }

  function SquareNamed(name: string): int
    requires |name| == 2
  {
    16 * ('8' as int - name[1] as int) + (name[0] as int - 'a' as int)
  }

  /** The position a text describes; None where `load` returns false. */
  function Load(fen: string): Option<Position> {
    if FenError(fen) != 0 then None
    else
      var tokens := Tokens(fen);
      var setup := ReadRanks(tokens[0], Cleared());
      Some(Position(
        setup.board, setup.kings,
        if tokens[1] == "w" then White else Black,
        Sides(Rights('K' in tokens[2], 'Q' in tokens[2]), Rights('k' in tokens[2], 'q' in tokens[2])),
        if tokens[3] == "-" then EMPTY else SquareNamed(tokens[3]),
        ParseInt(tokens[4]).value, ParseInt(tokens[5]).value))
  }
}
