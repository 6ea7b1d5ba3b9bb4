/** The texts of squares and positions, character by character: which square a name names, what
    texts `load` accepts, and what their fields mean. */
module ChessText {
  import opened Options
  import opened Strings
  import opened ChessBoard
  import opened ChessFen
  import opened ChessLoad
  import opened ChessTables
  import opened ChessRoundTrip

  // ----- squares -----

  /** Files are lettered from a, ranks numbered upwards to the eighth. */
  predicate Names(square: int, name: string) {
    OnBoard(square) && |name| == 2 && name[0] as int == 97 + File(square) && name[1] as int == 56 - Rank(square)
  }

  /** Every square prints as its name, and its name alone. */
  lemma AlgebraicNames(i: int, name: string)
    requires OnBoard(i)
    ensures Algebraic(i) == name <==> Names(i, name)
  {
    assert FILES[i % 16] as int == 97 + i % 16;
    assert RANKS[i / 16] as int == 56 - i / 16;
    if Names(i, name) {
      assert name == [name[0], name[1]];
    }
  }

  /** Reading a name gives its square. */
  lemma NameReads(i: int, name: string)
    requires Names(i, name)
    ensures SquareNamed(name) == i
  {
  }

  // ----- rows -----

  const LETTERS := "pnbrqkPNBRQK"

  /** How many squares a row describes. */
  function Width(row: string): nat {
    if row == "" then 0 else (if IsDigit(row[0]) then row[0] as int - 48 else 1) + Width(row[1..])
  }

  /** A row of letters and digits, no digit after a digit, for as many squares. */
  predicate PlainRow(row: string, width: int) {
    (forall i :: 0 <= i < |row| ==> IsDigit(row[i]) || row[i] in LETTERS)
    && (forall i :: 0 <= i < |row| - 1 ==> !(IsDigit(row[i]) && IsDigit(row[i + 1])))
    && Width(row) == width
  }

  lemma LettersArePieces(c: char)
    ensures PieceOf(c).Some? <==> c in LETTERS
  {
  }

  lemma {:induction false} RowAccepted(row: string, sum: int, previous: bool)
    requires 0 <= sum
    ensures RowError(row, sum, previous) == 0
            <==> PlainRow(row, 8 - sum) && (previous && row != "" ==> !IsDigit(row[0]))
  {
    if row != "" {
      LettersArePieces(row[0]);
      var rest := row[1..];
      assert forall i :: 0 <= i < |rest| ==> rest[i] == row[i + 1];
      RowAccepted(rest, sum + (if IsDigit(row[0]) then row[0] as int - 48 else 1), IsDigit(row[0]));
      PlainTail(row, 8 - sum);
    }
  }

  lemma PlainTail(row: string, width: int)
    requires row != ""
    ensures PlainRow(row, width)
            <==> (IsDigit(row[0]) || row[0] in LETTERS)
                 && (IsDigit(row[0]) && |row| > 1 ==> !IsDigit(row[1]))
                 && PlainRow(row[1..], width - if IsDigit(row[0]) then row[0] as int - 48 else 1)
  {
    var rest := row[1..];
    assert forall i :: 0 <= i < |rest| ==> rest[i] == row[i + 1];
    if PlainRow(rest, width - if IsDigit(row[0]) then row[0] as int - 48 else 1) {
      assert forall i :: 1 <= i < |row| ==> row[i] == rest[i - 1];
    }
  }

  lemma {:induction false} RowsAccepted(rows: seq<string>)
    ensures RowsError(rows) == 0 <==> forall i :: 0 <= i < |rows| ==> PlainRow(rows[i], 8)
  {
    if rows != [] {
      RowAccepted(rows[0], 0, false);
      RowsAccepted(rows[1..]);
      assert forall i :: 1 <= i < |rows| ==> rows[i] == rows[1..][i - 1];
    }
  }

  // ----- the other fields -----

  const CASTLING_TEXTS := [
    "-", "K", "Q", "KQ", "k", "Kk", "Qk", "KQk", "q", "Kq", "Qq", "KQq", "kq", "Kkq", "Qkq", "KQkq"]

  /** The castling letters each at most once and in their order, or a dash for none. */
  lemma CastlingAccepted(s: string)
    ensures CastlingField(s) <==> s in CASTLING_TEXTS
  {
    if s != "" && s == FlagsText('K' in s, 'Q' in s, 'k' in s, 'q' in s) {
      FlagsAreListed('K' in s, 'Q' in s, 'k' in s, 'q' in s);
    }
    forall i | 0 <= i < |CASTLING_TEXTS| ensures CastlingField(CASTLING_TEXTS[i]) {
      ListedIsField(i);
    }
  }

  lemma FlagsAreListed(a: bool, b: bool, c: bool, d: bool)
    ensures a || b || c || d ==> FlagsText(a, b, c, d) in CASTLING_TEXTS
  {
    var n := (if a then 1 else 0) + (if b then 2 else 0) + (if c then 4 else 0) + if d then 8 else 0;
    if a || b || c || d {
      assert FlagsText(a, b, c, d) == CASTLING_TEXTS[n];
    }
  }

  lemma ListedIsField(i: nat)
    requires i < |CASTLING_TEXTS|
    ensures CastlingField(CASTLING_TEXTS[i])
  {
    if i > 0 {
      var a, b, c, d := i % 2 == 1, i / 2 % 2 == 1, i / 4 % 2 == 1, i / 8 == 1;
      assert CASTLING_TEXTS[i] == FlagsText(a, b, c, d);
      FlagsRead(a, b, c, d);
    }
  }

  /** A square a pawn of the side that has just moved may have skipped, or a dash. */
  predicate SkippedSquare(s: string, side: string) {
    s == "-" || (|s| == 2 && 'a' <= s[0] <= 'h' && s[1] == if side == "w" then '6' else '3')
  }

  // ----- texts -----

  /** Six fields, separated by white space: eight rows of eight squares, the side to move, the
      castling rights, the square for taking in passing, and two counters. */
  predicate WellFormed(fen: string) {
    var f := Tokens(fen);
    |f| == 6
    && var rows := Split(f[0], '/');
       |rows| == 8 && (forall i :: 0 <= i < |rows| ==> PlainRow(rows[i], 8))
       && (f[1] == "w" || f[1] == "b") && f[2] in CASTLING_TEXTS && SkippedSquare(f[3], f[1])
       && ParsesToNumber(f[4]) && ParseInt(f[4]).Some? && ParseInt(f[4]).value >= 0
       && ParsesToNumber(f[5]) && ParseInt(f[5]).Some? && ParseInt(f[5]).value > 0
  }

  /** `validate_fen` finds no error in exactly these texts. */
  lemma AcceptedExactly(fen: string)
    ensures FenError(fen) == 0 <==> WellFormed(fen)
  {
    var f := Tokens(fen);
    if |f| == 6 {
      RowsAccepted(Split(f[0], '/'));
      CastlingAccepted(f[2]);
    }
  }

  /** What the other five fields say of a position. */
  predicate Describes(fen: string, p: Position) {
    var f := Tokens(fen);
    |f| == 6 && (p.turn.White? <==> f[1] == "w")
    && (p.castling.white.kingSide <==> 'K' in f[2]) && (p.castling.white.queenSide <==> 'Q' in f[2])
    && (p.castling.black.kingSide <==> 'k' in f[2]) && (p.castling.black.queenSide <==> 'q' in f[2])
    && (if f[3] == "-" then p.epSquare == EMPTY else Names(p.epSquare, f[3]))
    && ParseInt(f[4]) == Some(p.halfMoves) && ParseInt(f[5]) == Some(p.moveNumber)
  }

  lemma LoadDescribes(fen: string)
    requires Load(fen).Some?
    ensures Describes(fen, Load(fen).value)
  {
    var f, p := Tokens(fen), Load(fen).value;
    if f[3] != "-" {
      assert p.epSquare == 16 * (56 - f[3][1] as int) + (f[3][0] as int - 97);
    }
  }

  lemma LoadMeans(fen: string)
    ensures Load(fen).Some? <==> WellFormed(fen)
    ensures Load(fen).Some? ==> Describes(fen, Load(fen).value)
  {
    AcceptedExactly(fen);
    if Load(fen).Some? {
      LoadDescribes(fen);
    }
  }
}
