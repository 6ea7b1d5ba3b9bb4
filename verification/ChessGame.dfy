/** The game object: the closure variables of `Chess`, changed in place. */
module ChessGame {
  import opened Options
  import opened Strings
  import opened ChessBoard
  import opened ChessMoves
  import opened ChessPlay
  import opened ChessConsistency
  import opened ChessAttacks
  import opened ChessGenerate
  import opened ChessFen
  import opened ChessLoad
  import opened ChessRepetition
  import opened ChessLegal
  import opened ChessText

  // ----- recorded games -----

  /** Every entry of the history is a pseudo-legal move from a consistent position, and
      making them one after the other leads to p. */
  ghost predicate Recorded(p: Position, history: seq<Entry>)
    decreases |history|
  {
    history == []
    || var e := history[|history| - 1];
       Undoable(p.board, e)
       && var q := Undone(p.board, e);
          Consistent(q) && PseudoLegal(q, Safe(q), e.move) && e == EntryOf(q, e.move)
          && Playable(q, e.move) && Make(q, e.move) == p && Recorded(q, history[..|history| - 1])
  }

  /** The positions of a recorded game, first to last. */
  ghost function Positions(p: Position, history: seq<Entry>): (ps: seq<Position>)
    requires Recorded(p, history)
    ensures |ps| == |history| + 1 && ps[|history|] == p
    decreases |history|
  {
    if history == [] then [p]
    else Positions(Undone(p.board, history[|history| - 1]), history[..|history| - 1]) + [p]
  }

  lemma PositionsFront(p: Position, history: seq<Entry>)
    requires Recorded(p, history) && history != []
    ensures Recorded(Undone(p.board, history[|history| - 1]), history[..|history| - 1])
    ensures Positions(Undone(p.board, history[|history| - 1]), history[..|history| - 1]) < Positions(p, history)
  {
  }

  /** A pseudo-legal move from a consistent position can be recorded. */
  lemma RecordNext(p: Position, history: seq<Entry>, m: Move)
    requires Recorded(p, history) && Consistent(p) && PseudoLegal(p, Safe(p), m)
    ensures Playable(p, m) && Recorded(Make(p, m), history + [EntryOf(p, m)])
  {
    UndoRestores(p, Safe(p), m);
    var longer := history + [EntryOf(p, m)];
    assert longer[..|longer| - 1] == history;
  }

  ghost predicate IsLink(ps: seq<Position>, history: seq<Entry>, j: nat)
    requires |ps| == |history| + 1 && j < |history|
  {
    Playable(ps[j], history[j].move) && Make(ps[j], history[j].move) == ps[j + 1]
    && history[j] == EntryOf(ps[j], history[j].move)
  }

  /** Each position is the one before it after one move. */
  lemma {:induction false} Link(p: Position, history: seq<Entry>, j: nat)
    requires Recorded(p, history) && j < |history|
    ensures IsLink(Positions(p, history), history, j)
    decreases |history|
  {
    if j < |history| - 1 {
      PositionsFront(p, history);
      Link(Undone(p.board, history[|history| - 1]), history[..|history| - 1], j);
      FrontLink(p, history, j);
    } else {
      LastLink(p, history);
    }
  }

  lemma FrontLink(p: Position, history: seq<Entry>, j: nat)
    requires Recorded(p, history) && j < |history| - 1
    requires IsLink(Positions(Undone(p.board, history[|history| - 1]), history[..|history| - 1]),
               history[..|history| - 1], j)
    ensures IsLink(Positions(p, history), history, j)
  {
    var q, front := Undone(p.board, history[|history| - 1]), history[..|history| - 1];
    PositionsFront(p, history);
    SamePrefix(Positions(q, front), Positions(p, history), front, history, j);
  }

  lemma LastLink(p: Position, history: seq<Entry>)
    requires Recorded(p, history) && history != []
    ensures IsLink(Positions(p, history), history, |history| - 1)
  {
  }

  lemma Links(p: Position, history: seq<Entry>)
    requires Recorded(p, history)
    ensures Linked(Positions(p, history), history)
  {
    forall j: nat | j < |history| ensures IsLink(Positions(p, history), history, j) {
      Link(p, history, j);
    }
  }

  ghost predicate Linked(ps: seq<Position>, history: seq<Entry>)
    requires |ps| == |history| + 1
  {
    forall j: nat {:trigger IsLink(ps, history, j)} :: j < |history| ==> IsLink(ps, history, j)
  }

  lemma SamePrefix(qs: seq<Position>, ps: seq<Position>, front: seq<Entry>, history: seq<Entry>, j: nat)
    requires qs < ps && front < history && |qs| == |front| + 1 && |ps| == |history| + 1
    requires j < |front| && IsLink(qs, front, j)
    ensures IsLink(ps, history, j)
  {
  }

  // ----- repetition -----

  /** Every position before the last of a recorded game is consistent. */
  lemma {:induction false} PositionsConsistent(p: Position, history: seq<Entry>)
    requires Recorded(p, history) && Consistent(p)
    ensures forall q :: q in Positions(p, history) ==> Consistent(q)
    decreases |history|
  {
    if history != [] {
      var e := history[|history| - 1];
      PositionsConsistent(Undone(p.board, e), history[..|history| - 1]);
    }
  }

  lemma RepetitionMeans(p: Position, history: seq<Entry>, ps: seq<Position>)
    requires Recorded(p, history) && ps == Positions(p, history)
    ensures Consistent(p) ==> (Repeats(KeysOf(ps), |ps|) <==> ThreeAlike(ps))
  {
    if Consistent(p) {
      PositionsConsistent(p, history);
      RepeatsAreAlike(ps, KeysOf(ps));
    }
  }

  function CountIn(counts: map<string, nat>, key: string): nat {
    if key in counts then counts[key] else 0
  }

  /** The counts of the first n keys, and whether one has reached three. */
  ghost predicate Tallied(keys: seq<string>, n: nat, counts: map<string, nat>, repetition: bool)
    requires n <= |keys|
  {
    (forall key :: CountIn(counts, key) == Occurrences(keys, n, key)) && repetition == Repeats(keys, n)
  }

  lemma TallyNext(
    keys: seq<string>, n: nat, counts: map<string, nat>, repetition: bool, counts': map<string, nat>, repetition': bool)
    requires n < |keys| && Tallied(keys, n, counts, repetition)
    requires counts' == counts[keys[n] := CountIn(counts, keys[n]) + 1]
    requires repetition' == (repetition || counts'[keys[n]] >= 3)
    ensures Tallied(keys, n + 1, counts', repetition')
  {
    forall key ensures CountIn(counts', key) == Occurrences(keys, n + 1, key) {
      assert CountIn(counts, key) == Occurrences(keys, n, key);
    }
    forall key | Occurrences(keys, n, key) >= 3 ensures Occurrences(keys, n + 1, key) >= 3 {
    }
    if Repeats(keys, n + 1) {
      var key :| Occurrences(keys, n + 1, key) >= 3;
      assert key == keys[n] || Occurrences(keys, n, key) >= 3;
    }
    if repetition' && !repetition {
      assert Occurrences(keys, n + 1, keys[n]) >= 3;
    }
  }

  /** The moves of the entries from n on, the next one to be made on top. */
  function Stack(entries: seq<Entry>, n: nat): (moves: seq<Move>)
    requires n <= |entries|
    ensures |moves| == |entries| - n
    decreases |entries| - n
  {
    if n == |entries| then [] else Stack(entries, n + 1) + [entries[n].move]
  }

  /** The last entries of a game have been undone and their moves stacked up. */
  ghost predicate UndoneTo(p: Position, history: seq<Entry>, ps: seq<Position>, entries: seq<Entry>, moves: seq<Move>) {
    Recorded(p, history) && history <= entries && Positions(p, history) <= ps && moves == Stack(entries, |history|)
  }

  lemma UndoNext(p: Position, history: seq<Entry>, ps: seq<Position>, entries: seq<Entry>, moves: seq<Move>)
    requires UndoneTo(p, history, ps, entries, moves) && history != []
    ensures var e := history[|history| - 1];
            Undoable(p.board, e)
            && UndoneTo(Undone(p.board, e), history[..|history| - 1], ps, entries, moves + [e.move])
  {
  }

  lemma Within(qs: seq<Position>, rs: seq<Position>, ps: seq<Position>)
    requires qs < rs && rs <= ps
    ensures qs <= ps
  {
  }

  class Game {
    var board: array<Option<Piece>>
    var kings: Sides<int>
    var turn: Color
    var castling: Sides<Rights>
    var epSquare: int
    var halfMoves: int
    var moveNumber: int
    var history: seq<Entry>

    ghost predicate Valid()
      reads this
    {
      board.Length == 128
    }

    function View(): Position
      requires Valid()
      reads this, board
    {
      Position(board[..], kings, turn, castling, epSquare, halfMoves, moveNumber)
    }

    constructor ()
      ensures Valid() && fresh(board) && history == []
    {
      board := new Option<Piece>[128](i => None);
      kings, turn, castling := Sides(EMPTY, EMPTY), White, Sides(Rights(false, false), Rights(false, false));
      epSquare, halfMoves, moveNumber, history := EMPTY, 0, 1, [];
    }

    /** Moving the pieces, except the rook when castling. */
    method MovePieces(m: Move)
      requires Valid() && Playable(View(), m)
      modifies board
      ensures board[..] == Moved(old(View()), m)
    {
      board[m.to] := board[m.from];
      board[m.from] := None;
      if m.flag.EpCapture? {
        if turn.Black? {
          board[m.to - 16] := None;
        } else {
          board[m.to + 16] := None;
        }
      }
      if m.promotion.Some? {
        board[m.to] := Some(Piece(m.promotion.value, turn));
      }
    }

    method MoveRook(m: Move)
      requires Valid() && (m.flag.KingSide? || m.flag.QueenSide? ==> 2 <= m.to < 127)
      modifies board
      ensures board[..] == WithRook(old(board[..]), m)
    {
      if m.flag.KingSide? {
        board[m.to - 1] := board[m.to + 1];
        board[m.to + 1] := None;
      } else if m.flag.QueenSide? {
        board[m.to + 1] := board[m.to - 2];
        board[m.to - 2] := None;
      }
    }

    /** Turning off the right that depends on the rook of a square. */
    method LoseRight(c: Color, square: int)
      modifies this`castling
      ensures castling == old(castling).With(c, Losing(old(castling).Of(c), c, square))
    {
      var rights := castling.Of(c);
      if rights.queenSide || rights.kingSide {
        if square == HomeRook(c, false) && rights.queenSide {
          castling := castling.With(c, rights.(queenSide := false));
        } else if square == HomeRook(c, true) && rights.kingSide {
          castling := castling.With(c, rights.(kingSide := false));
        }
      }
    }

    /** `make_move`. */
    method MakeMove(m: Move)
      requires Valid() && Playable(View(), m)
      modifies this, board
      ensures Valid() && board == old(board)
      ensures View() == Make(old(View()), m) && history == old(history) + [EntryOf(old(View()), m)]
    {
      var us, them := turn, Swap(turn);
      history := history + [Entry(m, kings, turn, castling, epSquare, halfMoves, moveNumber)];
      MovePieces(m);
      MoveKing(m, us, them);
      Count(m);
    }

    /** The king's square, the rook when castling, and the castling rights. */
    method MoveKing(m: Move, us: Color, them: Color)
      requires Valid() && them == Swap(us) && 0 <= m.to < 128
      requires m.flag.KingSide? || m.flag.QueenSide? ==> 2 <= m.to < 127
      modifies this`kings, this`castling, board
      ensures var b, moved := old(board[..]), KingMoved(old(board[..]), m);
              board[..] == (if moved then WithRook(b, m) else b)
              && kings == (if moved then old(kings).With(b[m.to].value.color, m.to) else old(kings))
              && castling == RightsLeft(old(castling), us, m, moved)
    {
      if board[m.to].Some? && board[m.to].value.kind.King? {
        kings := kings.With(board[m.to].value.color, m.to);
        MoveRook(m);
        castling := castling.With(us, Rights(false, false));
      } else {
        LoseRight(us, m.from);
      }
      LoseRight(them, m.to);
    }

    /** The en passant square, the counters and the turn. */
    method Count(m: Move)
      modifies this`epSquare, this`halfMoves, this`moveNumber, this`turn
      ensures epSquare == if m.flag.BigPawn? then m.to - Forward(old(turn)) else EMPTY
      ensures halfMoves == if m.piece.Pawn? || m.flag.Capture? || m.flag.EpCapture? then 0 else old(halfMoves) + 1
      ensures moveNumber == (if old(turn).Black? then old(moveNumber) + 1 else old(moveNumber))
              && turn == Swap(old(turn))
    {
      epSquare := if m.flag.BigPawn? then (if turn.Black? then m.to - 16 else m.to + 16) else EMPTY;
      if m.piece.Pawn? {
        halfMoves := 0;
      } else if m.flag.Capture? || m.flag.EpCapture? {
        halfMoves := 0;
      } else {
        halfMoves := halfMoves + 1;
      }
      if turn.Black? {
        moveNumber := moveNumber + 1;
      }
      turn := Swap(turn);
    }

    /** `undo_move`. */
    method UndoMove() returns (undone: Option<Move>)
      requires Valid() && (history != [] ==> Undoable(board[..], history[|history| - 1]))
      modifies this, board
      ensures Valid() && board == old(board)
      ensures old(history) == [] ==> undone.None? && View() == old(View()) && history == []
      ensures old(history) != [] ==>
                var e := old(history)[|old(history)| - 1];
                undone == Some(e.move) && View() == Undone(old(board[..]), e)
                && history == old(history)[..|old(history)| - 1]
    {
      if history == [] {
        return None;
      }
      var e := history[|history| - 1];
      history := history[..|history| - 1];
      var m := e.move;
      kings, turn, castling := e.kings, e.turn, e.castling;
      epSquare, halfMoves, moveNumber := e.epSquare, e.halfMoves, e.moveNumber;
      PutBack(e);
      undone := Some(m);
    }

    method PutBack(e: Entry)
      requires Valid() && Undoable(board[..], e)
      modifies board
      ensures board[..] == UndoneBoard(old(board[..]), e)
    {
      var m, them := e.move, Swap(e.turn);
      board[m.from] := board[m.to];
      board[m.from] := Some(board[m.from].value.(kind := m.piece));
      board[m.to] := None;
      if m.flag.Capture? {
        board[m.to] := Some(Piece(m.captured.value, them));
      } else if m.flag.EpCapture? {
        var index := if e.turn.Black? then m.to - 16 else m.to + 16;
        board[index] := Some(Piece(Pawn, them));
      }
      if m.flag.KingSide? || m.flag.QueenSide? {
        var (to, from) := RookMove(m);
        board[to] := board[from];
        board[from] := None;
      }
    }

    /** A move and its undoing leave the game as it was. */
    method Try(m: Move, us: Color) returns (safe: bool)
      requires Valid() && Consistent(View()) && PseudoLegal(View(), Safe(View()), m)
      requires us == turn
      modifies this, board
      ensures Valid() && board == old(board) && View() == old(View()) && history == old(history)
      ensures Playable(View(), m) && safe == LeavesKingSafe(View(), m)
    {
      ghost var p := View();
      UndoRestores(p, Safe(p), m);
      OwnKingOnBoard(p, m);
      MakeMove(m);
      var check := Attacked(board[..], Swap(us), kings.Of(us));
      safe := !check;
      assert history[..|history| - 1] == old(history);
      var _ := UndoMove();
    }

    /** `generate_moves`: the pseudo-legal moves that leave the king safe.  The game is
        changed while they are tried out, and is as before when they are found. */
    method LegalMoves() returns (legal: seq<Move>)
      requires Valid() && Consistent(View())
      modifies this, board
      ensures Valid() && board == old(board) && View() == old(View()) && history == old(history)
      ensures forall m :: m in legal <==> Legal(View(), m)
      ensures forall m :: m in legal <==> LegalByRules(View(), m)
    {
      ghost var p := View();
      var us := turn;
      var moves := PseudoLegalMoves(View());
      legal := [];
      for i := 0 to |moves|
        invariant Valid() && board == old(board) && View() == p && history == old(history)
        invariant forall m :: m in legal <==> m in moves[..i] && Legal(p, m)
      {
        assert moves[i] in moves && moves[..i + 1] == moves[..i] + [moves[i]];
        var safe := Try(moves[i], us);
        if safe {
          legal := legal + [moves[i]];
        }
      }
      assert moves[..|moves|] == moves;
      forall m ensures Legal(p, m) <==> LegalByRules(p, m) {
        LegalIsByRules(p, m);
      }
    }

    /** `generate_fen`. */
    method GenerateFen() returns (fen: string)
      requires Valid()
      ensures fen == ChessFen.Fen(View())
    {
      fen := PrintRanks(board[..]);
      fen := Joined([fen, TurnText(turn), CastlingText(castling), EpText(epSquare),
                     NumberText(halfMoves), NumberText(moveNumber)]);
    }

    /** `in_threefold_repetition`: undoes the whole game and makes it again. */
    method InThreefoldRepetition() returns (repetition: bool)
      requires Valid() && Recorded(View(), history)
      modifies this, board
      ensures Valid() && board == old(board) && View() == old(View()) && history == old(history)
      ensures repetition == Repeats(KeysOf(Positions(View(), history)), |history| + 1)
      ensures Consistent(View()) ==> repetition == ThreeAlike(Positions(View(), history))
    {
      ghost var ps, entries := Positions(View(), history), history;
      RepetitionMeans(View(), history, ps);
      Links(View(), history);
      var moves := UndoAll();
      assert entries[..0] == [] && entries[..|entries|] == entries;
      repetition := Replay(moves, ps, entries);
    }

    /** The second loop: makes the moves again and counts the positions. */
    method Replay(stack: seq<Move>, ghost ps: seq<Position>, ghost entries: seq<Entry>) returns (repetition: bool)
      requires Valid() && |ps| == |entries| + 1 && Linked(ps, entries) && Replaying(ps, entries, 0, stack)
      modifies this, board
      ensures Valid() && board == old(board) && Replaying(ps, entries, |entries|, [])
      ensures repetition == Repeats(KeysOf(ps), |ps|)
    {
      var moves, counts: map<string, nat> := stack, map[];
      repetition := false;
      ghost var n: nat := 0;
      while true
        invariant Valid() && board == old(board) && n < |ps| && Replaying(ps, entries, n, moves)
        invariant Tallied(KeysOf(ps), n, counts, repetition)
        decreases |moves|
      {
        counts, repetition := CountKey(KeyOf(View()), counts, repetition, KeysOf(ps), n);
        if |moves| == 0 {
          break;
        }
        assert IsLink(ps, entries, n);
        moves := Redo(moves, ps, entries, n);
        n := n + 1;
      }
    }

    /** Counting one key. */
    method CountKey(key: string, counts: map<string, nat>, already: bool, ghost keys: seq<string>, ghost n: nat)
      returns (counts': map<string, nat>, repetition: bool)
      requires n < |keys| && key == keys[n] && Tallied(keys, n, counts, already)
      ensures Tallied(keys, n + 1, counts', repetition)
    {
      counts' := counts[key := CountIn(counts, key) + 1];
      repetition := already || counts'[key] >= 3;
      TallyNext(keys, n, counts, already, counts', repetition);
    }

    /** The first n entries have been made again. */
    ghost predicate Replaying(ps: seq<Position>, entries: seq<Entry>, n: nat, moves: seq<Move>)
      requires Valid() && |ps| == |entries| + 1 && n < |ps|
      reads this, board
    {
      View() == ps[n] && history == entries[..n] && moves == Stack(entries, n)
    }

    method Redo(moves: seq<Move>, ghost ps: seq<Position>, ghost entries: seq<Entry>, ghost n: nat)
      returns (rest: seq<Move>)
      requires Valid() && |ps| == |entries| + 1 && n < |entries|
      requires Replaying(ps, entries, n, moves) && IsLink(ps, entries, n)
      modifies this, board
      ensures Valid() && board == old(board) && Replaying(ps, entries, n + 1, rest) && |rest| < |moves|
    {
      rest := moves[..|moves| - 1];
      MakeMove(moves[|moves| - 1]);
      assert entries[..n + 1] == entries[..n] + [entries[n]];
    }

    /** The first loop: undoes everything and stacks the moves up. */
    method UndoAll() returns (moves: seq<Move>)
      requires Valid() && Recorded(View(), history)
      modifies this, board
      ensures Valid() && board == old(board) && history == []
      ensures View() == Positions(old(View()), old(history))[0]
      ensures moves == Stack(old(history), 0)
    {
      moves := [];
      ghost var ps, entries := Positions(View(), history), history;
      while true
        invariant Valid() && board == old(board) && Undoing(ps, entries, moves)
        decreases |history|
      {
        var move := UndoOne(ps, entries, moves);
        if move.None? {
          break;
        }
        moves := moves + [move.value];
      }
    }

    /** The last entries have been undone. */
    ghost predicate Undoing(ps: seq<Position>, entries: seq<Entry>, moves: seq<Move>)
      requires Valid()
      reads this, board
    {
      UndoneTo(View(), history, ps, entries, moves)
    }

    method UndoOne(ghost ps: seq<Position>, ghost entries: seq<Entry>, ghost moves: seq<Move>)
      returns (move: Option<Move>)
      requires Valid() && Undoing(ps, entries, moves)
      modifies this, board
      ensures Valid() && board == old(board)
      ensures move.None? ==> history == [] && View() == old(View()) && Undoing(ps, entries, moves)
      ensures move.Some? ==> |history| < old(|history|) && Undoing(ps, entries, moves + [move.value])
    {
      if history != [] {
        UndoNext(View(), history, ps, entries, moves);
      }
      move := UndoMove();
    }

    // ----- setting up -----

    /** `put`: refuses squares beside the board and a second king. */
    method Put(piece: Piece, square: int) returns (ok: bool)
      requires Valid()
      modifies this`kings, board
      ensures Setup(board[..], kings, square) == ChessLoad.Put(Setup(old(board[..]), old(kings), square), piece)
      ensures ok <==> OnBoard(square) && (piece.kind.King? ==> old(kings).Of(piece.color) in {EMPTY, square})
      ensures !ok ==> board[..] == old(board[..]) && kings == old(kings)
      ensures ok ==> board[..] == old(board[..])[square := Some(piece)]
      ensures ok ==> kings == if piece.kind.King? then old(kings).With(piece.color, square) else old(kings)
    {
      if !OnBoard(square) {
        return false;
      }
      if piece.kind.King? && !(kings.Of(piece.color) == EMPTY || kings.Of(piece.color) == square) {
        return false;
      }
      board[square] := Some(piece);
      if piece.kind.King? {
        kings := kings.With(piece.color, square);
      }
      ok := true;
    }

    /** One character of the first field. */
    method Place(c: char, square: int) returns (next: int)
      requires Valid()
      modifies this`kings, board
      ensures Setup(board[..], kings, next) == ReadChar(Setup(old(board[..]), old(kings), square), c)
    {
      if c == '/' {
        return square + 8;
      }
      if IsDigit(c) {
        return square + (c as int - '0' as int);
      }
      if PieceOf(c).Some? {
        var _ := Put(PieceOf(c).value, square);
      }
      next := square + 1;
    }

    /** `load`: an invalid text is rejected and changes nothing. */
    method LoadFen(fen: string) returns (ok: bool)
      requires Valid()
      modifies this, board
      ensures Valid() && (ok <==> Load(fen).Some?) && (ok <==> WellFormed(fen))
      ensures !ok ==> board == old(board) && View() == old(View()) && history == old(history)
      ensures ok ==> fresh(board) && View() == Load(fen).value && Describes(fen, View()) && history == []
    {
      LoadMeans(fen);
      ok := SetUp(fen);
    }

    method SetUp(fen: string) returns (ok: bool)
      requires Valid()
      modifies this, board
      ensures Valid() && (ok <==> Load(fen).Some?)
      ensures !ok ==> board == old(board) && View() == old(View()) && history == old(history)
      ensures ok ==> fresh(board) && View() == Load(fen).value && history == []
    {
      if FenError(fen) != 0 {
        return false;
      }
      var tokens := Tokens(fen);
      board := new Option<Piece>[128](i => None);
      kings, history := Sides(EMPTY, EMPTY), [];
      assert board[..] == NoPieces();
      var position, square := tokens[0], 0;
      for i := 0 to |position|
        invariant Valid() && fresh(board) && history == []
        invariant ReadRanks(position[i..], Setup(board[..], kings, square)) == ReadRanks(position, Cleared())
      {
        assert position[i..][0] == position[i] && position[i..][1..] == position[i + 1..];
        square := Place(position[i], square);
      }
      assert position[|position|..] == "";
      turn := if tokens[1] == "w" then White else Black;
      castling := Sides(Rights('K' in tokens[2], 'Q' in tokens[2]), Rights('k' in tokens[2], 'q' in tokens[2]));
      epSquare := if tokens[3] == "-" then EMPTY else SquareNamed(tokens[3]);
      halfMoves, moveNumber := ParseInt(tokens[4]).value, ParseInt(tokens[5]).value;
      ok := true;
    }
  }
}
