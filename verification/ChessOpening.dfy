/** The first move of a game, from the named squares to the stored text. */
module ChessOpening {
  import opened Options
  import opened Strings
  import opened ChessBoard
  import opened ChessMoves
  import opened ChessPlay
  import opened ChessTables
  import opened ChessAttacks
  import opened ChessConsistency
  import opened ChessRules
  import opened ChessLegal
  import opened ChessText
  import opened ChessFen
  import opened ChessLoad
  import opened ChessGame
  import opened ChessAction

  const E2 := 100
  const E3 := 84
  const E4 := 68

  const KINGS_PAWN := Move(White, E2, E4, BigPawn, Pawn, None, None)

  // The ranks of the new position, each with those below it.
  const FROM_RANK_2 := "PPPP1PPP" + "/" + "RNBQKBNR"
  const FROM_RANK_3 := "8" + "/" + FROM_RANK_2
  const FROM_RANK_4 := "4P3" + "/" + FROM_RANK_3
  const FROM_RANK_5 := "8" + "/" + FROM_RANK_4
  const FROM_RANK_6 := "8" + "/" + FROM_RANK_5
  const FROM_RANK_7 := "pppppppp" + "/" + FROM_RANK_6
  const FROM_RANK_8 := "rnbqkbnr" + "/" + FROM_RANK_7

  /** "rnbqkbnr/pppppppp/8/8/4P3/8/PPPP1PPP/RNBQKBNR b KQkq e3 0 1". */
  const TEXT := FROM_RANK_8 + " " + "b KQkq e3 0 1"

  lemma KingsPawnIsAllowed()
    ensures Consistent(Start()) && Allowed(Start(), KINGS_PAWN)
  {
    StartIsInPlay();
    assert StartSquare(E2) == Some(Piece(Pawn, White)) && StartSquare(E3) == None && StartSquare(E4) == None;
  }

  /** The board after the move, square by square. */
  function OpenedSquare(i: int): Option<Piece>
    requires 0 <= i < 128
  {
    if i == E2 then None else if i == E4 then Some(Piece(Pawn, White)) else StartSquare(i)
  }

  lemma OpenedBoard(b: Board)
    requires Playable(Start(), KINGS_PAWN) && b == Make(Start(), KINGS_PAWN).board
    ensures forall i :: 0 <= i < 128 ==> b[i] == OpenedSquare(i)
  {
    KingsPawnIsAllowed();
    forall i | 0 <= i < 128 ensures b[i] == OpenedSquare(i) {
      MadeByRules(Start(), KINGS_PAWN, i);
    }
  }

  /** No black piece is in line with the white king. */
  lemma BlackIsUnaligned(i: int, kind: Kind)
    requires OnBoard(i) && StartSquare(i) == Some(Piece(kind, Black))
    ensures Rank(i) <= 1 && (kind.Pawn? || !Aligned(kind, Rank(i) - Rank(E1), File(i) - File(E1)))
  {
  }

  lemma KingsPawnIsLegal()
    ensures LegalByRules(Start(), KINGS_PAWN)
  {
    KingsPawnIsAllowed();
    PseudoLegalIsAllowed(Start(), KINGS_PAWN);
    MadeByRules(Start(), KINGS_PAWN, E2);
    var q := Make(Start(), KINGS_PAWN);
    OpenedBoard(q.board);
    assert q.kings.white == E1;
    forall i ensures !Threatens(q.board, Black, i, E1) {
      if OnBoard(i) && At(q.board, i).Some? && At(q.board, i).value.color == Black {
        BlackIsUnaligned(i, At(q.board, i).value.kind);
      }
    }
  }

  /** There is only this move between the two squares. */
  lemma OnlyKingsPawn(m: Move)
    requires LegalByRules(Start(), m) && GoesBetween(m, "e2", "e4")
    ensures m == KINGS_PAWN
  {
    assert m.from == 16 * Rank(m.from) + File(m.from) && m.to == 16 * Rank(m.to) + File(m.to);
    assert m.from == E2 && m.to == E4;
    assert StartSquare(E2) == Some(Piece(Pawn, White));
  }

  // ----- the text -----

  lemma {:induction false} EmptyThen(b: Board, i: nat, j: nat, end: nat, empty: nat)
    requires i <= j <= end <= 128 && forall k :: i <= k < j ==> b[k].None?
    ensures RunText(b, i, end, empty) == RunText(b, j, end, empty + (j - i))
    decreases j - i
  {
    if i < j {
      EmptyThen(b, i + 1, j, end, empty + 1);
    }
  }

  lemma {:induction false} SameRun(b: Board, c: Board, i: nat, end: nat, empty: nat)
    requires i <= end <= 128 && forall k :: i <= k < end ==> b[k] == c[k]
    ensures RunText(b, i, end, empty) == RunText(c, i, end, empty)
    decreases end - i
  {
    if i < end {
      SameRun(b, c, i + 1, end, if b[i].None? then empty + 1 else 0);
    }
  }

  lemma {:induction false} PawnsThen(b: Board, i: nat, j: nat, end: nat, pawns: string)
    requires i <= j <= end <= 128 && forall k :: i <= k < j ==> b[k] == Some(Piece(Pawn, White))
    requires |pawns| == j - i && forall k :: 0 <= k < |pawns| ==> pawns[k] == 'P'
    ensures RunText(b, i, end, 0) == pawns + RunText(b, j, end, 0)
    decreases j - i
  {
    if i < j {
      PawnsThen(b, i + 1, j, end, pawns[1..]);
      assert pawns == ['P'] + pawns[1..];
    }
  }

  lemma SmallCounts()
    ensures Count(0) == "" && Count(1) == "1" && Count(3) == "3" && Count(4) == "4"
  {
  }

  lemma FourthRank(b: Board)
    requires forall i :: 0 <= i < 128 ==> b[i] == OpenedSquare(i)
    ensures RankText(b, 4) == "4P3"
  {
    SmallCounts();
    EmptyThen(b, 64, 68, 72, 0);
    EmptyThen(b, 69, 72, 72, 0);
    assert RunText(b, 68, 72, 4) == "4" + ['P'] + "3";
  }

  lemma SecondRankText(b: Board)
    requires forall i :: 0 <= i < 128 ==> b[i] == OpenedSquare(i)
    ensures RankText(b, 6) == "PPPP1PPP"
  {
    SmallCounts();
    PawnsThen(b, 96, 100, 104, "PPPP");
    EmptyThen(b, 100, 101, 104, 0);
    PawnsThen(b, 102, 104, 104, "PP");
    assert RunText(b, 104, 104, 0) == "";
    assert RunText(b, 101, 104, 1) == "1" + ['P'] + "PP";
  }

  lemma OtherRank(b: Board, r: nat)
    requires (forall i :: 0 <= i < 128 ==> b[i] == OpenedSquare(i)) && r < 8 && r != 4 && r != 6
    ensures RankText(b, r) == StartRank(r)
  {
    forall k | 16 * r <= k < 16 * r + 8 ensures b[k] == StartBoard()[k] {
    }
    SameRun(b, StartBoard(), 16 * r, 16 * r + 8, 0);
    StartRankText(r);
  }

  lemma NextRank(b: Board, r: nat, rank: string, rest: string)
    requires r < 7 && RankText(b, r) == rank && RanksText(b, r + 1) == rest
    ensures RanksText(b, r) == rank + "/" + rest
  {
  }

  lemma LastRank(b: Board)
    requires RankText(b, 7) == "RNBQKBNR"
    ensures RanksText(b, 7) == "RNBQKBNR"
  {
  }

  lemma OpenedRanks(b: Board)
    requires forall i :: 0 <= i < 128 ==> b[i] == OpenedSquare(i)
    ensures RanksText(b, 0) == FROM_RANK_8
  {
    OtherRank(b, 7);
    SecondRankText(b);
    OtherRank(b, 5);
    FourthRank(b);
    OtherRank(b, 3);
    OtherRank(b, 2);
    OtherRank(b, 1);
    OtherRank(b, 0);
    JoinedRanks(b);
  }

  lemma JoinedRanks(b: Board)
    requires RankText(b, 7) == "RNBQKBNR" && RankText(b, 6) == "PPPP1PPP" && RankText(b, 5) == "8"
    requires RankText(b, 4) == "4P3" && RankText(b, 3) == "8" && RankText(b, 2) == "8"
    requires RankText(b, 1) == "pppppppp" && RankText(b, 0) == "rnbqkbnr"
    ensures RanksText(b, 0) == FROM_RANK_8
  {
    LastRank(b);
    NextRank(b, 6, "PPPP1PPP", "RNBQKBNR");
    NextRank(b, 5, "8", FROM_RANK_2);
    NextRank(b, 4, "4P3", FROM_RANK_3);
    NextRank(b, 3, "8", FROM_RANK_4);
    NextRank(b, 2, "8", FROM_RANK_5);
    NextRank(b, 1, "pppppppp", FROM_RANK_6);
    NextRank(b, 0, "rnbqkbnr", FROM_RANK_7);
  }

  lemma OpenedText()
    ensures Playable(Start(), KINGS_PAWN) && Fen(Make(Start(), KINGS_PAWN)) == TEXT
  {
    KingsPawnIsAllowed();
    MadeByRules(Start(), KINGS_PAWN, E2);
    var q := Make(Start(), KINGS_PAWN);
    OpenedBoard(q.board);
    OpenedRanks(q.board);
    OpenedFields(q, Fields(q));
  }

  /** The position after the move, apart from the board. */
  lemma OpenedPosition(q: Position)
    requires Playable(Start(), KINGS_PAWN) && q == Make(Start(), KINGS_PAWN)
    ensures q.epSquare == E3 && q.turn == Black && q.halfMoves == 0 && q.moveNumber == 1
    ensures q.castling == Sides(Rights(true, true), Rights(true, true))
  {
    assert StartSquare(E2) == Some(Piece(Pawn, White));
  }

  lemma OpenedFields(q: Position, f: seq<string>)
    requires Playable(Start(), KINGS_PAWN) && q == Make(Start(), KINGS_PAWN) && f == Fields(q) && f[0] == FROM_RANK_8
    ensures Joined(f) == TEXT
  {
    OpenedPosition(q);
    SmallFields(q, f);
    OpenedJoined(f);
  }

  lemma SmallFields(q: Position, f: seq<string>)
    requires q.epSquare == E3 && q.turn == Black && q.halfMoves == 0 && q.moveNumber == 1 && f == Fields(q)
    requires q.castling == Sides(Rights(true, true), Rights(true, true))
    ensures |f| == 6 && f[1..] == ["b", "KQkq", "e3", "0", "1"]
  {
    SmallNumbers();
    StartRights(q.castling);
    AlgebraicNames(E3, "e3");
  }

  lemma OpenedJoined(f: seq<string>)
    requires |f| == 6 && f[0] == FROM_RANK_8 && f[1..] == ["b", "KQkq", "e3", "0", "1"]
    ensures Joined(f) == TEXT
  {
    var g := f[1..];
    assert Joined(g[3..]) == "0 1";
    assert Joined(g[2..]) == "e3 0 1";
    assert Joined(g[1..]) == "KQkq e3 0 1";
    assert Joined(g) == "b KQkq e3 0 1";
  }

  /** Whatever is stored after a legal move between these squares is this text. */
  lemma OpeningStores(m: Move)
    requires LegalByRules(Start(), m) && GoesBetween(m, "e2", "e4")
    ensures Fen(Make(Start(), m)) == TEXT
  {
    OnlyKingsPawn(m);
    OpenedText();
  }

  lemma OpeningIsMade()
    ensures LegalByRules(Start(), KINGS_PAWN) && GoesBetween(KINGS_PAWN, "e2", "e4")
  {
    KingsPawnIsLegal();
  }

  /** Asking for e2 to e4 in a new game stores this text. */
  method OpenGame() returns (fen: Option<string>)
    ensures fen == Some(TEXT)
  {
    ghost var p := Start();
    StartIsInPlay();
    OpeningIsMade();
    fen := MoveAction(None, "e2", "e4", p);
    forall m | LegalByRules(p, m) && GoesBetween(m, "e2", "e4") ensures Fen(Make(p, m)) == TEXT {
      OpeningStores(m);
    }
  }
}
