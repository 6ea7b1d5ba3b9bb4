/** Printing a position and reading it back. */
module ChessRoundTrip {
  import opened Options
  import opened Strings
  import opened ChessBoard
  import opened ChessFen
  import opened ChessLoad

  // ----- fields and tokens -----

  predicate NoSpaces(s: string) {
    forall c :: c in s ==> !IsSpace(c)
  }

  predicate Clean(s: string) {
    s != "" && NoSpaces(s)
  }

  lemma {:induction false} TokensField(part: string, rest: string)
    requires NoSpaces(part) && rest != "" && !IsSpace(rest[0])
    ensures Tokens(part + " " + rest) == [part] + Tokens(rest)
  {
    var s := part + " " + rest;
    if part == "" {
      assert s[0] == ' ' && s[1..] == rest;
    } else {
      assert s[0] == part[0] && s[1..] == part[1..] + " " + rest;
      assert part[0] in part && forall c :: c in part[1..] ==> c in part;
      TokensField(part[1..], rest);
      assert [part[0]] + part[1..] == part;
    }
  }

  lemma {:induction false} TokensLast(part: string)
    requires NoSpaces(part)
    ensures Tokens(part) == [part]
  {
    if part != "" {
      assert part[0] in part && forall c :: c in part[1..] ==> c in part;
      TokensLast(part[1..]);
      assert [part[0]] + part[1..] == part;
    }
  }

  lemma {:induction false} JoinedStarts(fields: seq<string>)
    requires fields != [] && forall f :: f in fields ==> Clean(f)
    ensures Joined(fields) != "" && !IsSpace(Joined(fields)[0])
  {
    assert fields[0] in fields && fields[0][0] in fields[0];
  }

  /** Splitting at spaces undoes joining with spaces. */
  lemma {:induction false} TokensJoined(fields: seq<string>)
    requires fields != [] && forall f :: f in fields ==> Clean(f)
    ensures Tokens(Joined(fields)) == fields
  {
    assert fields[0] in fields;
    if |fields| == 1 {
      TokensLast(fields[0]);
    } else {
      assert forall f :: f in fields[1..] ==> f in fields;
      TokensJoined(fields[1..]);
      JoinedStarts(fields[1..]);
      TokensField(fields[0], Joined(fields[1..]));
    }
  }

  // ----- numbers -----

  lemma {:induction false} AllDigits(s: string)
    requires forall c :: c in s ==> IsDigit(c)
    ensures DigitsPrefix(s) == s
  {
    if s != "" {
      assert s[0] in s && forall c :: c in s[1..] ==> c in s;
      AllDigits(s[1..]);
      assert [s[0]] + s[1..] == s;
    }
  }

  lemma DigitsRead(s: string)
    requires s != "" && forall c :: c in s ==> IsDigit(c)
    ensures Clean(s) && ParsesToNumber(s) && ParseInt(s) == Some(ReadDecimal(s))
  {
    assert s[0] in s;
    assert |s| >= 2 ==> s[1] in s;
    AllDigits(s);
  }

  lemma NumberReads(n: int)
    requires n >= 0
    ensures Clean(NumberText(n)) && ParsesToNumber(NumberText(n)) && ParseInt(NumberText(n)) == Some(n)
  {
    DecimalReads(n);
    DigitsRead(Decimal(n));
  }

  // ----- castling rights and the en passant square -----

  lemma CastlingReads(castling: Sides<Rights>)
    ensures var s := CastlingText(castling);
            Clean(s) && CastlingField(s)
            && ('K' in s <==> castling.white.kingSide) && ('Q' in s <==> castling.white.queenSide)
            && ('k' in s <==> castling.black.kingSide) && ('q' in s <==> castling.black.queenSide)
  {
    FlagsRead(castling.white.kingSide, castling.white.queenSide, castling.black.kingSide, castling.black.queenSide);
  }

  lemma FlagsRead(a: bool, b: bool, c: bool, d: bool)
    ensures forall x ::
              x in FlagsText(a, b, c, d) <==>
                (a && x == 'K') || (b && x == 'Q') || (c && x == 'k') || (d && x == 'q')
    ensures FlagsText(a, b, c, d) != "" <==> a || b || c || d
  {
  }

  lemma EpReads(p: Position)
    requires EpBacked(p.board, p.epSquare, p.turn)
    ensures var s := EpText(p.epSquare);
            Clean(s) && EpField(s)
            && p.epSquare == (if s == "-" then EMPTY else SquareNamed(s))
            && (|s| == 2 ==> s[1] == if p.turn.White? then '6' else '3')
  {
  }

  // ----- rows -----

  predicate RowChar(c: char) {
    IsDigit(c) || PieceOf(c).Some?
  }

  lemma RowCharIsPlain(c: char)
    requires RowChar(c)
    ensures c != '/' && !IsSpace(c)
  {
  }

  lemma LetterReads(piece: Piece)
    ensures PieceOf(Letter(piece.kind, piece.color)) == Some(piece) && !IsDigit(Letter(piece.kind, piece.color))
  {
  }

  lemma CountText(empty: nat)
    requires empty < 10
    ensures Count(empty) == if empty == 0 then "" else [Digit(empty)]
  {
  }

  lemma {:induction false} RunChars(b: Board, i: nat, end: nat, empty: nat)
    requires i <= end <= 128 && empty + (end - i) < 10
    ensures forall c :: c in RunText(b, i, end, empty) ==> RowChar(c)
    ensures i < end || empty > 0 ==> RunText(b, i, end, empty) != ""
    decreases end - i
  {
    CountText(empty);
    if i < end {
      if b[i].None? {
        RunChars(b, i + 1, end, empty + 1);
      } else {
        LetterReads(b[i].value);
        RunChars(b, i + 1, end, 0);
      }
    }
  }

  lemma RowErrorNext(c: char, rest: string, sum: int, previous: bool)
    ensures RowError([c] + rest, sum, previous)
         == if IsDigit(c) then (if previous then 8 else RowError(rest, sum + (c as int - 48), true))
            else if PieceOf(c).None? then 9
            else RowError(rest, sum + 1, false)
  {
  }

  /** A printed row has eight squares and no two counts in a row. */
  lemma {:induction false} RowIsValid(b: Board, i: nat, end: nat, empty: nat, sum: int)
    requires i <= end <= 128 && empty < 10 && sum + empty + (end - i) == 8 && sum >= 0
    ensures RowError(RunText(b, i, end, empty), sum, false) == 0
    decreases end - i
  {
    CountText(empty);
    if i == end {
      if empty > 0 {
        RowErrorNext(Digit(empty), "", sum, false);
        assert [Digit(empty)] + "" == Count(empty);
      }
    } else if b[i].None? {
      RowIsValid(b, i + 1, end, empty + 1, sum);
    } else {
      var c, rest := Letter(b[i].value.kind, b[i].value.color), RunText(b, i + 1, end, 0);
      LetterReads(b[i].value);
      RowIsValid(b, i + 1, end, 0, sum + empty + 1);
      if empty > 0 {
        RowErrorNext(Digit(empty), [c] + rest, sum, false);
        assert Count(empty) + [c] + rest == [Digit(empty)] + ([c] + rest);
        RowErrorNext(c, rest, sum + empty, true);
      } else {
        RowErrorNext(c, rest, sum, false);
        assert Count(empty) + [c] + rest == [c] + rest;
      }
    }
  }

  function RankTexts(b: Board, r: nat): (texts: seq<string>)
    requires r < 8
    ensures |texts| == 8 - r
    decreases 8 - r, b
  {
    [RankText(b, r)] + if r == 7 then [] else RankTexts(b, r + 1)
  }

  lemma RankIsPlain(b: Board, r: nat)
    requires r < 8
    ensures '/' !in RankText(b, r) && Clean(RankText(b, r)) && RowError(RankText(b, r), 0, false) == 0
  {
    RunChars(b, 16 * r, 16 * r + 8, 0);
    RowIsValid(b, 16 * r, 16 * r + 8, 0, 0);
    forall c | c in RankText(b, r) ensures c != '/' && !IsSpace(c) {
      RowCharIsPlain(c);
    }
  }

  lemma SplitSlash(part: string, rest: string)
    requires '/' !in part
    ensures Split(part + "/" + rest, '/') == [part] + Split(rest, '/')
  {
    SplitPart(part, '/', rest);
  }

  lemma {:induction false} RanksSplit(b: Board, r: nat)
    requires r < 8
    ensures Split(RanksText(b, r), '/') == RankTexts(b, r)
    decreases 8 - r
  {
    RankIsPlain(b, r);
    if r == 7 {
      SplitNone(RankText(b, r), '/');
    } else {
      RanksSplit(b, r + 1);
      SplitSlash(RankText(b, r), RanksText(b, r + 1));
    }
  }

  lemma {:induction false} RanksAreValid(b: Board, r: nat)
    requires r < 8
    ensures RowsError(RankTexts(b, r)) == 0
    decreases 8 - r
  {
    RankIsPlain(b, r);
    if r < 7 {
      RanksAreValid(b, r + 1);
    }
    assert RankTexts(b, r)[1..] == if r == 7 then [] else RankTexts(b, r + 1);
  }

  lemma CleanJoin(a: string, b: string)
    requires Clean(a) && Clean(b)
    ensures Clean(a + "/" + b)
  {
  }

  lemma {:induction false} RanksAreClean(b: Board, r: nat)
    requires r < 8
    ensures Clean(RanksText(b, r))
    decreases 8 - r
  {
    RankIsPlain(b, r);
    if r < 7 {
      RanksAreClean(b, r + 1);
      CleanJoin(RankText(b, r), RanksText(b, r + 1));
    }
  }

  // ----- the text is valid -----

  lemma FieldsRead(p: Position)
    requires Consistent(p)
    ensures forall f :: f in Fields(p) ==> Clean(f)
    ensures Tokens(Fen(p)) == Fields(p)
  {
    RanksAreClean(p.board, 0);
    CastlingReads(p.castling);
    EpReads(p);
    NumberReads(p.halfMoves);
    NumberReads(p.moveNumber);
    TokensJoined(Fields(p));
  }

  /** The conditions on the six fields, one by one. */
  predicate ValidFields(f: seq<string>) {
    |f| == 6
    && ParsesToNumber(f[5]) && ParseInt(f[5]).Some? && ParseInt(f[5]).value > 0
    && ParsesToNumber(f[4]) && ParseInt(f[4]).Some? && ParseInt(f[4]).value >= 0
    && EpField(f[3]) && CastlingField(f[2]) && (f[1] == "w" || f[1] == "b")
    && |Split(f[0], '/')| == 8 && RowsError(Split(f[0], '/')) == 0
    && (|f[3]| == 2 ==> f[3][1] == if f[1] == "w" then '6' else '3')
  }

  lemma ValidFieldsPass(fen: string, f: seq<string>)
    requires Tokens(fen) == f && ValidFields(f)
    ensures FenError(fen) == 0
  {
  }

  lemma FieldsAreValid(p: Position)
    requires Consistent(p)
    ensures ValidFields(Fields(p))
  {
    RanksSplit(p.board, 0);
    RanksAreValid(p.board, 0);
    CastlingReads(p.castling);
    EpReads(p);
    NumberReads(p.halfMoves);
    NumberReads(p.moveNumber);
    var rows := RankTexts(p.board, 0);
    assert Split(Fields(p)[0], '/') == rows && |rows| == 8;
  }

  /** The text of a consistent position passes the check. */
  lemma FenIsValid(p: Position)
    requires Consistent(p)
    ensures FenError(Fen(p)) == 0
  {
    FieldsRead(p);
    FieldsAreValid(p);
    ValidFieldsPass(Fen(p), Fields(p));
  }

  // ----- reading the squares back -----

  ghost function Upto(b: Board, i: nat): (c: Board)
    ensures forall k :: 0 <= k < 128 ==> c[k] == if k < i then b[k] else None
  {
    seq(128, (k: int) => if 0 <= k < 128 && k < i then b[k] else None)
  }

  /** The position set up as far as square i. */
  ghost function Before(p: Position, i: nat): Setup {
    Setup(Upto(p.board, i),
          Sides(if p.kings.white < i then p.kings.white else EMPTY, if p.kings.black < i then p.kings.black else EMPTY),
          i)
  }

  lemma {:induction false} ReadAppend(s: string, t: string, setup: Setup)
    ensures ReadRanks(s + t, setup) == ReadRanks(t, ReadRanks(s, setup))
  {
    if s == "" {
      assert s + t == t;
    } else {
      assert (s + t)[0] == s[0] && (s + t)[1..] == s[1..] + t;
      ReadAppend(s[1..], t, ReadChar(setup, s[0]));
    }
  }

  lemma ReadOne(c: char, rest: string, setup: Setup)
    ensures ReadRanks([c] + rest, setup) == ReadRanks(rest, ReadChar(setup, c))
  {
  }

  /** Passing an empty square. */
  lemma BeforeEmpty(p: Position, i: nat)
    requires Consistent(p) && i < 128 && p.board[i].None?
    ensures Before(p, i + 1) == Before(p, i).(square := i + 1)
  {
  }

  lemma NoKingAt(p: Position, i: nat, c: Color)
    requires Consistent(p) && i < 128 && !Holds(p.board, i, King, c)
    ensures p.kings.Of(c) != i
  {
  }

  /** Placing the next piece. */
  lemma BeforePiece(p: Position, i: nat)
    requires Consistent(p) && i < 128 && p.board[i].Some?
    ensures ReadChar(Before(p, i), Letter(p.board[i].value.kind, p.board[i].value.color)) == Before(p, i + 1)
  {
    var piece := p.board[i].value;
    LetterReads(piece);
    RowCharIsPlain(Letter(piece.kind, piece.color));
    assert OnBoard(i);
    assert Before(p, i + 1).board == Before(p, i).board[i := Some(piece)];
    if piece.kind.King? {
      assert SideConsistent(p, piece.color) && Holds(p.board, i, King, piece.color);
      NoKingAt(p, i, Swap(piece.color));
    } else {
      NoKingAt(p, i, White);
      NoKingAt(p, i, Black);
    }
  }

  lemma ReadDigit(p: Position, i: nat, empty: nat)
    requires 0 < empty < 10 && empty <= i
    ensures ReadChar(Before(p, i).(square := i - empty), Digit(empty)) == Before(p, i)
  {
  }

  /** Reading the text of a rank from square i on, after `empty` empty squares. */
  lemma {:induction false} ReadRun(p: Position, i: nat, end: nat, empty: nat)
    requires Consistent(p) && i <= end <= 128 && empty <= i && empty + (end - i) < 10
    ensures ReadRanks(RunText(p.board, i, end, empty), Before(p, i).(square := i - empty)) == Before(p, end)
    decreases end - i
  {
    CountText(empty);
    var at := Before(p, i).(square := i - empty);
    if i == end {
      if empty > 0 {
        ReadDigit(p, i, empty);
        ReadOne(Digit(empty), "", at);
        assert [Digit(empty)] + "" == Count(empty);
      }
    } else if p.board[i].None? {
      BeforeEmpty(p, i);
      ReadRun(p, i + 1, end, empty + 1);
    } else {
      BeforePiece(p, i);
      ReadRun(p, i + 1, end, 0);
      ReadPiece(p, i, empty, Letter(p.board[i].value.kind, p.board[i].value.color), RunText(p.board, i + 1, end, 0));
    }
  }

  /** Reading the count of the empty squares before a piece, and the piece. */
  lemma ReadPiece(p: Position, i: nat, empty: nat, c: char, rest: string)
    requires empty <= i && empty < 10
    ensures ReadRanks(Count(empty) + [c] + rest, Before(p, i).(square := i - empty))
            == ReadRanks(rest, ReadChar(Before(p, i), c))
  {
  }

  /** The squares beside the board are passed over by the slash. */
  lemma {:induction false} BeforeBeside(p: Position, i: nat, n: nat)
    requires Consistent(p) && i + n <= 128 && forall k :: i <= k < i + n ==> !OnBoard(k)
    ensures Before(p, i + n) == Before(p, i).(square := i + n)
  {
  }

  lemma BesideRank(r: nat)
    requires r < 8
    ensures forall k :: 16 * r + 8 <= k < 16 * r + 16 ==> !OnBoard(k)
  {
  }

  lemma {:induction false} ReadRanksBack(p: Position, r: nat)
    requires Consistent(p) && r < 8
    ensures ReadRanks(RanksText(p.board, r), Before(p, 16 * r)) == Before(p, 120)
    decreases 8 - r
  {
    if r < 7 {
      ReadRanksBack(p, r + 1);
      ReadRank(p, r);
    } else {
      ReadRun(p, 16 * r, 16 * r + 8, 0);
    }
  }

  lemma ReadRank(p: Position, r: nat)
    requires Consistent(p) && r < 7
    ensures ReadRanks(RanksText(p.board, r), Before(p, 16 * r))
            == ReadRanks(RanksText(p.board, r + 1), Before(p, 16 * r + 16))
  {
    ReadRun(p, 16 * r, 16 * r + 8, 0);
    BesideRank(r);
    BeforeBeside(p, 16 * r + 8, 8);
    ReadSlash(RankText(p.board, r), RanksText(p.board, r + 1), Before(p, 16 * r));
  }

  lemma ReadSlash(text: string, rest: string, setup: Setup)
    ensures ReadRanks(text + "/" + rest, setup)
         == ReadRanks(rest, ReadRanks(text, setup).(square := ReadRanks(text, setup).square + 8))
  {
    assert text + "/" + rest == text + ("/" + rest);
    ReadAppend(text, "/" + rest, setup);
    ReadOne('/', rest, ReadRanks(text, setup));
  }

  lemma BoardReads(p: Position)
    requires Consistent(p)
    ensures ReadRanks(RanksText(p.board, 0), Cleared()) == Setup(p.board, p.kings, 120)
  {
    ReadRanksBack(p, 0);
    StartsCleared(p);
    BesideRank(7);
    BeforeBeside(p, 120, 8);
    EndsComplete(p);
  }

  lemma StartsCleared(p: Position)
    requires Consistent(p)
    ensures Before(p, 0) == Cleared()
  {
  }

  lemma EndsComplete(p: Position)
    requires Consistent(p)
    ensures Before(p, 128) == Setup(p.board, p.kings, 128)
  {
  }

  lemma LoadFields(fen: string, f: seq<string>, board: Board, kings: Sides<int>)
    requires Tokens(fen) == f && |f| == 6 && FenError(fen) == 0
    requires ReadRanks(f[0], Cleared()) == Setup(board, kings, 120)
    ensures EpField(f[3]) && ParseInt(f[4]).Some? && ParseInt(f[5]).Some?
    ensures Load(fen) == Some(Position(
              board, kings, if f[1] == "w" then White else Black,
              Sides(Rights('K' in f[2], 'Q' in f[2]), Rights('k' in f[2], 'q' in f[2])),
              if f[3] == "-" then EMPTY else SquareNamed(f[3]), ParseInt(f[4]).value, ParseInt(f[5]).value))
  {
  }

  /** Reading the text of a consistent position gives back the same board, kings, turn,
      rights, en passant square and counters. */
  lemma FenRoundTrip(p: Position)
    requires Consistent(p)
    ensures Load(Fen(p)) == Some(p)
  {
    FenIsValid(p);
    FieldsRead(p);
    BoardReads(p);
    OtherFieldsRead(p, Fields(p));
    LoadFields(Fen(p), Fields(p), p.board, p.kings);
  }

  lemma OtherFieldsRead(p: Position, f: seq<string>)
    requires Consistent(p) && f == Fields(p)
    ensures |f| == 6 && EpField(f[3]) && ParseInt(f[4]) == Some(p.halfMoves) && ParseInt(f[5]) == Some(p.moveNumber)
    ensures (if f[1] == "w" then White else Black) == p.turn
    ensures Sides(Rights('K' in f[2], 'Q' in f[2]), Rights('k' in f[2], 'q' in f[2])) == p.castling
    ensures (if f[3] == "-" then EMPTY else SquareNamed(f[3])) == p.epSquare
  {
    CastlingReads(p.castling);
    EpReads(p);
    NumberReads(p.halfMoves);
    NumberReads(p.moveNumber);
  }
}
