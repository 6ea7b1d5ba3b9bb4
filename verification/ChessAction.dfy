/** The contract's actions: the database keeps only the text of a position, and every move
    starts by reading it. */
module ChessAction {
  import opened Options
  import opened Strings
  import opened ChessBoard
  import opened ChessMoves
  import opened ChessPlay
  import opened ChessConsistency
  import opened ChessTables
  import opened ChessAttacks
  import opened ChessGenerate
  import opened ChessFen
  import opened ChessLoad
  import opened ChessRoundTrip
  import opened ChessGame
  import opened ChessRules
  import opened ChessLegal
  import opened ChessText

  // ----- positions a game can reach -----

  /** A consistent position with both kings, in which the side to move cannot take the
      other king. */
  ghost predicate InPlay(p: Position) {
    Consistent(p) && p.kings.white != EMPTY && p.kings.black != EMPTY
    && !IsAttacked(p.board, p.turn, p.kings.Of(Swap(p.turn)))
  }

  /** A capture is an attack. */
  lemma CaptureAttacks(p: Position, safe: int -> bool, m: Move)
    requires Consistent(p) && PseudoLegal(p, safe, m) && m.captured == Some(King)
    ensures m.to == p.kings.Of(Swap(p.turn)) && IsAttacked(p.board, p.turn, m.to)
  {
    PseudoLegalLands(p, safe, m);
    assert !CastleMove(p, safe, m) by {
      if CastleMove(p, safe, m) {
        CastleRecoverable(p, safe, m);
      }
    }
    var i :| MoveFrom(p, i, m);
    var to, flag :| Target(p, i, to, flag) && m in AddMove(p, i, to, flag);
    AddedMove(p, i, to, flag, m);
    assert AttackedFrom(p.board, p.turn, to, i);
    assert SideConsistent(p, Swap(p.turn)) && Holds(p.board, m.to, King, Swap(p.turn));
  }

  /** No move of a position in play takes a king. */
  lemma NoKingTaken(p: Position, m: Move)
    requires InPlay(p) && PseudoLegal(p, Safe(p), m)
    ensures m.captured != Some(King)
  {
    if m.captured == Some(King) {
      CaptureAttacks(p, Safe(p), m);
    }
  }

  /** Legal moves lead from positions in play to positions in play, and storing the text of
      the new position loses nothing. */
  lemma LegalKeepsInPlay(p: Position, m: Move)
    requires InPlay(p) && Legal(p, m)
    ensures InPlay(Make(p, m)) && Load(Fen(Make(p, m))) == Some(Make(p, m))
  {
    NoKingTaken(p, m);
    MakeKeepsConsistent(p, Safe(p), m);
    FenRoundTrip(Make(p, m));
  }

  // ----- a game stored as text between its moves -----

  /** The positions of a game played in memory. */
  ghost predicate Played(ps: seq<Position>, moves: seq<Move>) {
    |ps| == |moves| + 1
    && forall j {:trigger PlayedAt(ps, moves, j)} :: 0 <= j < |moves| ==> PlayedAt(ps, moves, j)
  }

  ghost predicate PlayedAt(ps: seq<Position>, moves: seq<Move>, j: nat)
    requires |ps| == |moves| + 1 && j < |moves|
  {
    Legal(ps[j], moves[j]) && ps[j + 1] == Make(ps[j], moves[j])
  }

  /** In every game from a position in play, each stored text carries the whole position. */
  lemma {:induction false} StoredGame(ps: seq<Position>, moves: seq<Move>, j: nat)
    requires Played(ps, moves) && InPlay(ps[0]) && j < |ps|
    ensures InPlay(ps[j]) && Load(Fen(ps[j])) == Some(ps[j])
  {
    if j == 0 {
      FenRoundTrip(ps[0]);
    } else {
      StoredGame(ps, moves, j - 1);
      assert PlayedAt(ps, moves, j - 1);
      StoredNext(ps, moves, j - 1);
    }
  }

  lemma StoredNext(ps: seq<Position>, moves: seq<Move>, j: nat)
    requires |ps| == |moves| + 1 && j < |moves| && PlayedAt(ps, moves, j) && InPlay(ps[j])
    ensures InPlay(ps[j + 1]) && Load(Fen(ps[j + 1])) == Some(ps[j + 1])
  {
    LegalKeepsInPlay(ps[j], moves[j]);
  }

  /** In every game the sides alternate, and the move number rises after every move of Black. */
  lemma {:induction false} TurnsAlternate(ps: seq<Position>, moves: seq<Move>, j: nat)
    requires Played(ps, moves) && j < |ps|
    ensures ps[j].turn == if j % 2 == 0 then ps[0].turn else Swap(ps[0].turn)
    ensures ps[j].moveNumber == ps[0].moveNumber + (if ps[0].turn.White? then j / 2 else (j + 1) / 2)
  {
    if j > 0 {
      TurnsAlternate(ps, moves, j - 1);
      TurnNext(ps, moves, j - 1);
    }
  }

  lemma TurnNext(ps: seq<Position>, moves: seq<Move>, j: nat)
    requires Played(ps, moves) && j < |moves|
    ensures ps[j + 1].turn == Swap(ps[j].turn)
    ensures ps[j + 1].moveNumber == ps[j].moveNumber + if ps[j].turn.White? then 0 else 1
  {
    assert PlayedAt(ps, moves, j);
  }

  /** In every game the half-move counter of a position is the number of moves since the last
      one that moved a pawn or took a piece. */
  lemma {:induction false} QuietMovesCount(ps: seq<Position>, moves: seq<Move>, i: nat, j: nat)
    requires Played(ps, moves) && InPlay(ps[0]) && i <= j < |ps|
    requires forall k :: i <= k < j ==> !moves[k].piece.Pawn? && moves[k].captured.None?
    ensures ps[j].halfMoves == ps[i].halfMoves + (j - i)
    ensures i > 0 && (moves[i - 1].piece.Pawn? || moves[i - 1].captured.Some?) ==> ps[j].halfMoves == j - i
    decreases j
  {
    if i > 0 {
      CountAt(ps, moves, i - 1);
    }
    if i < j {
      QuietMovesCount(ps, moves, i, j - 1);
      CountAt(ps, moves, j - 1);
    }
  }

  lemma CountAt(ps: seq<Position>, moves: seq<Move>, j: nat)
    requires Played(ps, moves) && InPlay(ps[0]) && j < |moves|
    ensures ps[j + 1].halfMoves == if moves[j].piece.Pawn? || moves[j].captured.Some? then 0 else ps[j].halfMoves + 1
  {
    StoredGame(ps, moves, j);
    assert PlayedAt(ps, moves, j);
    HalfMovesCount(ps[j], Safe(ps[j]), moves[j]);
  }

  // ----- the starting position -----

  /** "rnbqkbnr/pppppppp/8/8/8/8/PPPPPPPP/RNBQKBNR w KQkq - 0 1", rank by rank. */
  function DefaultPosition(): string {
    StartRanks(0) + " " + "w KQkq - 0 1"
  }

  const BACK_RANK: seq<Kind> := [Rook, Knight, Bishop, Queen, King, Bishop, Knight, Rook]

  function StartSquare(i: int): Option<Piece>
    requires 0 <= i < 128
  {
    var r, f := i / 16, i % 16;
    if f >= 8 then None
    else if r == RANK_8 then Some(Piece(BACK_RANK[f], Black))
    else if r == RANK_7 then Some(Piece(Pawn, Black))
    else if r == RANK_2 then Some(Piece(Pawn, White))
    else if r == RANK_1 then Some(Piece(BACK_RANK[f], White))
    else None
  }

  function StartBoard(): (b: Board)
    ensures forall i :: 0 <= i < 128 ==> b[i] == StartSquare(i)
  {
    seq(128, (i: int) => if 0 <= i < 128 then StartSquare(i) else None)
  }

  function Start(): Position {
    Position(StartBoard(), Sides(E1, E8), White, Sides(Rights(true, true), Rights(true, true)), EMPTY, 0, 1)
  }

  lemma StartIsInPlay()
    ensures InPlay(Start())
  {
    var p := Start();
    forall i | 0 <= i < 128 && p.board[i].Some?
      ensures OnBoard(i) && (p.board[i].value.kind.Pawn? ==> RANK_8 < Rank(i) < RANK_1)
    {
    }
    StartKing(White);
    StartKing(Black);
    StartIsQuiet();
  }

  lemma StartKing(c: Color)
    ensures SideConsistent(Start(), c)
  {
  }

  /** The white pieces do not attack the black king. */
  lemma StartIsQuiet()
    ensures !IsAttacked(StartBoard(), White, E8)
  {
    var b := StartBoard();
    forall i ensures !AttackedFrom(b, White, E8, i) {
      if OnBoard(i) && At(b, i).Some? && At(b, i).value.color == White {
        QuietFrom(i, At(b, i).value.kind);
      }
    }
  }

  lemma QuietFrom(i: int, kind: Kind)
    requires OnBoard(i) && StartSquare(i) == Some(Piece(kind, White))
    ensures !AttackedFrom(StartBoard(), White, E8, i)
  {
    StartsUnaligned(i, kind);
    ReachesIfAligned(StartBoard(), i, E8, Piece(kind, White));
  }

  lemma StartsUnaligned(i: int, kind: Kind)
    requires OnBoard(i) && StartSquare(i) == Some(Piece(kind, White))
    ensures !Aligned(kind, Rank(i) - Rank(E8), File(i) - File(E8))
  {
  }

  lemma {:induction false} FullRun(b: Board, i: nat, end: nat, empty: nat)
    requires i <= end <= 128 && forall k :: i <= k < end ==> b[k].Some?
    ensures RunText(b, i, end, empty)
         == Count(empty)
            + seq(end - i, k requires 0 <= k < end - i => Letter(b[i + k].value.kind, b[i + k].value.color))
    decreases end - i
  {
    if i < end {
      FullRun(b, i + 1, end, 0);
    }
  }

  lemma {:induction false} EmptyRun(b: Board, i: nat, end: nat, empty: nat)
    requires i <= end <= 128 && forall k :: i <= k < end ==> b[k].None?
    ensures RunText(b, i, end, empty) == Count(empty + (end - i))
    decreases end - i
  {
    if i < end {
      EmptyRun(b, i + 1, end, empty + 1);
    }
  }

  /** The text of each rank of the starting position. */
  function StartRank(r: nat): string {
    if r == RANK_8 then "rnbqkbnr" else if r == RANK_7 then "pppppppp"
    else if r == RANK_2 then "PPPPPPPP" else if r == RANK_1 then "RNBQKBNR" else "8"
  }

  lemma StartRankText(r: nat)
    requires r < 8
    ensures RankText(StartBoard(), r) == StartRank(r)
  {
    var b, i := StartBoard(), 16 * r;
    forall k | i <= k < i + 8 ensures b[k] == RankSquare(r, k - i) {
      FileIs(r, k);
    }
    if r == RANK_8 || r == RANK_7 || r == RANK_2 || r == RANK_1 {
      FullRun(b, i, i + 8, 0);
      FullRankText(r, RankText(b, r));
    } else {
      EmptyRun(b, i, i + 8, 0);
    }
  }

  /** The squares of a rank. */
  function RankSquare(r: nat, f: int): Option<Piece>
    requires r < 8 && 0 <= f < 8
  {
    if r == RANK_8 then Some(Piece(BACK_RANK[f], Black))
    else if r == RANK_7 then Some(Piece(Pawn, Black))
    else if r == RANK_2 then Some(Piece(Pawn, White))
    else if r == RANK_1 then Some(Piece(BACK_RANK[f], White))
    else None
  }

  lemma FullRankText(r: nat, text: string)
    requires r == RANK_8 || r == RANK_7 || r == RANK_2 || r == RANK_1
    requires |text| == 8
    requires forall k :: 0 <= k < 8 ==>
               RankSquare(r, k).Some? && text[k] == Letter(RankSquare(r, k).value.kind, RankSquare(r, k).value.color)
    ensures text == StartRank(r)
  {
  }

  function StartRanks(r: nat): string
    requires r < 8
    decreases 8 - r
  {
    if r == 7 then StartRank(r) else StartRank(r) + "/" + StartRanks(r + 1)
  }

  lemma {:induction false} RanksAreStart(b: Board, r: nat)
    requires r < 8 && b == StartBoard()
    ensures RanksText(b, r) == StartRanks(r)
    decreases 8 - r
  {
    StartRankText(r);
    if r < 7 {
      RanksAreStart(b, r + 1);
    }
  }

  /** The default text is the starting position's, and loads as it. */
  lemma DefaultIsStart()
    ensures Fen(Start()) == DefaultPosition() && Load(DefaultPosition()) == Some(Start())
  {
    StartIsInPlay();
    FenRoundTrip(Start());
    var f := Fields(Start());
    StartFields(Start(), f);
    RestOfFields(f);
  }

  lemma StartFields(p: Position, f: seq<string>)
    requires p == Start() && f == Fields(p)
    ensures f == [StartRanks(0), "w", "KQkq", "-", "0", "1"]
  {
    RanksAreStart(p.board, 0);
    SmallNumbers();
    StartRights(p.castling);
    assert EpText(p.epSquare) == "-";
  }

  lemma StartRights(castling: Sides<Rights>)
    requires castling == Sides(Rights(true, true), Rights(true, true))
    ensures CastlingText(castling) == "KQkq"
  {
  }

  lemma SmallNumbers()
    ensures NumberText(0) == "0" && NumberText(1) == "1"
  {
  }

  lemma RestOfFields(f: seq<string>)
    requires |f| == 6 && f[1..] == ["w", "KQkq", "-", "0", "1"]
    ensures Joined(f) == f[0] + " " + "w KQkq - 0 1"
  {
    var g := f[1..];
    assert Joined(g[3..]) == "0 1";
    assert Joined(g[2..]) == "- 0 1";
    assert Joined(g[1..]) == "KQkq - 0 1";
    assert Joined(g) == "w KQkq - 0 1";
  }

  // ----- the move action -----

  /** The text the database holds, or the default one. */
  function StoredText(stored: Option<string>): string {
    if stored.None? || stored.value == "" then DefaultPosition() else stored.value
  }

  /** The move asked for: named squares, and a queen if a pawn promotes. */
  predicate Asked(m: Move, from: string, to: string) {
    OnBoard(m.from) && OnBoard(m.to) && Algebraic(m.from) == from && Algebraic(m.to) == to
    && (m.promotion.None? || m.promotion == Some(Queen))
  }

  /** The move goes between the named squares. */
  ghost predicate GoesBetween(m: Move, from: string, to: string) {
    Names(m.from, from) && Names(m.to, to)
  }

  /** A pawn that arrives on the first or last rank is a queen afterwards. */
  ghost predicate QueensPawn(p: Position, m: Move)
    requires Playable(p, m)
  {
    m.piece.Pawn? && (Rank(m.to) == RANK_8 || Rank(m.to) == RANK_1) ==>
      At(Make(p, m).board, m.to) == Some(Piece(Queen, p.turn))
  }

  /** What was asked for, without the program's test. */
  lemma AskedMeans(p: Position, m: Move, from: string, to: string)
    requires Consistent(p) && Legal(p, m)
    ensures Asked(m, from, to) <==> GoesBetween(m, from, to) && QueensPawn(p, m)
  {
    LegalIsByRules(p, m);
    AlgebraicNames(m.from, from);
    AlgebraicNames(m.to, to);
    MadeByRules(p, m, m.to);
  }

  /** If any legal move goes between two squares, one that was asked for does. */
  lemma SomeIsAsked(p: Position, m: Move, from: string, to: string) returns (n: Move)
    requires Consistent(p) && Legal(p, m) && GoesBetween(m, from, to)
    ensures Legal(p, n) && Asked(n, from, to)
  {
    LegalIsByRules(p, m);
    n := m;
    if m.piece.Pawn? && (Rank(m.to) == RANK_8 || Rank(m.to) == RANK_1) {
      n := m.(promotion := Some(Queen));
      PromotionChoices(p, m, Queen);
    }
    AlgebraicNames(m.from, from);
    AlgebraicNames(m.to, to);
  }

  lemma StoredIsRead(stored: Option<string>, p: Position)
    requires if stored.Some? && stored.value != "" then Load(stored.value) == Some(p) else p == Start()
    ensures Load(StoredText(stored)) == Some(p)
  {
    DefaultIsStart();
  }

  /** The `move` action: reads the stored position, makes the first legal move between the
      named squares, with a queen for a promoted pawn, and gives the text to store; None where
      it throws, exactly if no legal move goes between these squares.  Without a stored text it
      starts from the starting position. */
  method MoveAction(stored: Option<string>, from: string, to: string, ghost p: Position) returns (fen: Option<string>)
    requires InPlay(p)
    requires if stored.Some? && stored.value != "" then Load(stored.value) == Some(p) else p == Start()
    ensures fen.None? <==> forall m :: Legal(p, m) ==> !Asked(m, from, to)
    ensures fen.None? <==> forall m :: LegalByRules(p, m) ==> !GoesBetween(m, from, to)
    ensures fen.Some? ==> exists m ::
              LegalByRules(p, m) && GoesBetween(m, from, to) && QueensPawn(p, m) && Legal(p, m) && Asked(m, from, to)
              && fen.value == Fen(Make(p, m)) && InPlay(Make(p, m)) && Load(fen.value) == Some(Make(p, m))
  {
    StoredIsRead(stored, p);
    var game := new Game();
    var loaded := game.LoadFen(StoredText(stored));
    var moves := game.LegalMoves();
    var chosen := FirstAsked(moves, from, to);
    if chosen.None? {
      forall m | LegalByRules(p, m) && GoesBetween(m, from, to) ensures false {
        LegalIsByRules(p, m);
        var n := SomeIsAsked(p, m, from, to);
      }
      return None;
    }
    LegalKeepsInPlay(p, chosen.value);
    LegalIsByRules(p, chosen.value);
    AskedMeans(p, chosen.value, from, to);
    game.MakeMove(chosen.value);
    var text := game.GenerateFen();
    fen := Some(text);
  }

  method FirstAsked(moves: seq<Move>, from: string, to: string) returns (move: Option<Move>)
    ensures move.None? <==> forall m :: m in moves ==> !Asked(m, from, to)
    ensures move.Some? ==> move.value in moves && Asked(move.value, from, to)
  {
    for i := 0 to |moves|
      invariant forall m :: m in moves[..i] ==> !Asked(m, from, to)
    {
      if Asked(moves[i], from, to) {
        return Some(moves[i]);
      }
      assert moves[..i + 1] == moves[..i] + [moves[i]];
    }
    assert moves[..|moves|] == moves;
    move := None;
  }
}
