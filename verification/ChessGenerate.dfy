/** Generating moves (generate_moves): the loops find exactly the pseudo-legal moves. */
module ChessGenerate {
  import opened Options
  import opened ChessBoard
  import opened ChessMoves
  import opened ChessAttacks

  /** The squares the other side does not attack. */
  ghost function Safe(p: Position): int -> bool {
    (square: int) => !IsAttacked(p.board, Swap(p.turn), square)
  }

  // ----- pawns -----

  ghost predicate PawnMove(p: Position, i: int, m: Move)
    requires At(p.board, i).Some?
  {
    exists to, flag :: PawnTarget(p, i, to, flag) && m in AddMove(p, i, to, flag)
  }

  /** The diagonal captures, towards one side. */
  function CaptureMoves(p: Position, i: int, square: int): seq<Move>
    requires At(p.board, i).Some?
  {
    if OffBoard(square) then []
    else if Enemy(p, square) then AddMove(p, i, square, Capture)
    else if square == p.epSquare then AddMove(p, i, square, EpCapture)
    else []
  }

  method PawnMoves(p: Position, i: int) returns (moves: seq<Move>)
    requires OnBoard(i) && Own(p, i)
    ensures forall m :: m in moves <==> PawnMove(p, i, m)
  {
    var forward := Forward(p.turn);
    var square := i + forward;
    moves := [];
    if At(p.board, square).None? {
      moves := moves + AddMove(p, i, square, Normal);
      if SecondRank(p.turn, i) && At(p.board, i + 2 * forward).None? {
        moves := moves + AddMove(p, i, i + 2 * forward, BigPawn);
      }
    }
    ghost var steps := moves;
    moves := moves + CaptureMoves(p, i, i + forward + 1);
    moves := moves + CaptureMoves(p, i, i + forward - 1);
    forall m ensures m in moves <==> PawnMove(p, i, m) {
      PawnCases(p, i, m, steps);
    }
  }

  ghost predicate IsStep(p: Position, i: int, m: Move)
    requires At(p.board, i).Some?
  {
    (PawnTarget(p, i, i + Forward(p.turn), Normal) && m in AddMove(p, i, i + Forward(p.turn), Normal))
    || (PawnTarget(p, i, i + 2 * Forward(p.turn), BigPawn) && m in AddMove(p, i, i + 2 * Forward(p.turn), BigPawn))
  }

  lemma CaptureCases(p: Position, i: int, square: int, m: Move)
    requires OnBoard(i) && Own(p, i)
    requires square == i + Forward(p.turn) + 1 || square == i + Forward(p.turn) - 1
    ensures m in CaptureMoves(p, i, square)
            <==> (PawnTarget(p, i, square, Capture) && m in AddMove(p, i, square, Capture))
                 || (PawnTarget(p, i, square, EpCapture) && m in AddMove(p, i, square, EpCapture))
  {
    OffBoardExact(square);
  }

  lemma PawnCases(p: Position, i: int, m: Move, steps: seq<Move>)
    requires OnBoard(i) && Own(p, i) && (m in steps <==> IsStep(p, i, m))
    ensures PawnMove(p, i, m)
            <==> m in steps || m in CaptureMoves(p, i, i + Forward(p.turn) + 1)
                 || m in CaptureMoves(p, i, i + Forward(p.turn) - 1)
  {
    CaptureCases(p, i, i + Forward(p.turn) + 1, m);
    CaptureCases(p, i, i + Forward(p.turn) - 1, m);
  }

  // ----- other pieces -----

  /** Going n steps in one direction is a move with this flag. */
  predicate StepMove(p: Position, i: int, offset: int, n: nat, flag: Flag)
    requires At(p.board, i).Some?
  {
    Walk(p.board, i, offset, n) && (SingleStep(At(p.board, i).value.kind) ==> n == 1)
    && ((flag.Normal? && At(p.board, Step(i, offset, n)).None?)
        || (flag.Capture? && At(p.board, Step(i, offset, n)).Some? && !Own(p, Step(i, offset, n))))
  }

  ghost predicate DirectionMove(p: Position, i: int, offset: int, m: Move)
    requires At(p.board, i).Some?
  {
    exists n: nat, flag :: StepMove(p, i, offset, n, flag) && m in AddMove(p, i, Step(i, offset, n), flag)
  }

  /** The empty squares walked over so far. */
  ghost predicate Open(p: Position, i: int, offset: int, n: nat) {
    forall k: nat {:trigger Step(i, offset, k)} :: 1 <= k <= n ==>
      OnBoard(Step(i, offset, k)) && At(p.board, Step(i, offset, k)).None?
  }

  ghost predicate WalkedMove(p: Position, i: int, offset: int, n: nat, m: Move)
    requires At(p.board, i).Some?
  {
    exists k: nat :: 1 <= k <= n && m in AddMove(p, i, Step(i, offset, k), Normal)
  }

  /** The inner loop: walks in one direction until the board, a piece or a single step ends it. */
  method DirectionMoves(p: Position, i: int, offset: int) returns (moves: seq<Move>)
    requires OnBoard(i) && Own(p, i) && -33 <= offset <= 33 && offset != 0
    ensures forall m :: m in moves <==> DirectionMove(p, i, offset, m)
  {
    var single := SingleStep(At(p.board, i).value.kind);
    var square := i;
    ghost var n: nat := 0;
    moves := [];
    while true
      invariant square == Step(i, offset, n) && OnBoard(square) && Open(p, i, offset, n)
      invariant single ==> n == 0
      invariant forall m :: m in moves <==> WalkedMove(p, i, offset, n, m)
      decreases if offset > 0 then 128 - square else square
    {
      square := square + offset;
      OffBoardExact(square);
      ghost var walked := moves;
      if OffBoard(square) {
        DirectionEnds(p, i, offset, n, walked, []);
        return;
      }
      if At(p.board, square).Some? {
        if Own(p, square) {
          DirectionEnds(p, i, offset, n, walked, []);
          return;
        }
        moves := moves + AddMove(p, i, square, Capture);
        DirectionEnds(p, i, offset, n, walked, AddMove(p, i, square, Capture));
        return;
      }
      moves := moves + AddMove(p, i, square, Normal);
      WalkOn(p, i, offset, n, walked, moves);
      n := n + 1;
      if single {
        DirectionSteps(p, i, offset, moves);
        return;
      }
    }
  }

  lemma WalkOn(p: Position, i: int, offset: int, n: nat, walked: seq<Move>, longer: seq<Move>)
    requires At(p.board, i).Some? && forall m :: m in walked <==> WalkedMove(p, i, offset, n, m)
    requires longer == walked + AddMove(p, i, Step(i, offset, n + 1), Normal)
    ensures forall m :: m in longer <==> WalkedMove(p, i, offset, n + 1, m)
  {
  }

  /** The walk ends before square n + 1, or captures there. */
  lemma DirectionEnds(p: Position, i: int, offset: int, n: nat, walked: seq<Move>, last: seq<Move>)
    requires At(p.board, i).Some? && Open(p, i, offset, n)
    requires SingleStep(At(p.board, i).value.kind) ==> n == 0
    requires forall m :: m in walked <==> WalkedMove(p, i, offset, n, m)
    requires var next := Step(i, offset, n + 1);
             if OnBoard(next) && At(p.board, next).Some? && !Own(p, next) then last == AddMove(p, i, next, Capture)
             else last == [] && (!OnBoard(next) || At(p.board, next).Some?)
    ensures forall m :: m in walked + last <==> DirectionMove(p, i, offset, m)
  {
  }

  /** A knight or king goes one step. */
  lemma DirectionSteps(p: Position, i: int, offset: int, moves: seq<Move>)
    requires At(p.board, i).Some? && SingleStep(At(p.board, i).value.kind) && Open(p, i, offset, 1)
    requires forall m :: m in moves <==> WalkedMove(p, i, offset, 1, m)
    ensures forall m :: m in moves <==> DirectionMove(p, i, offset, m)
  {
  }

  ghost predicate PieceMove(p: Position, i: int, m: Move)
    requires At(p.board, i).Some?
  {
    exists to, flag :: PieceTarget(p, i, to, flag) && m in AddMove(p, i, to, flag)
  }

  lemma PieceMoveDirections(p: Position, i: int, m: Move)
    requires At(p.board, i).Some?
    ensures PieceMove(p, i, m) <==> exists o :: o in Offsets(At(p.board, i).value.kind) && DirectionMove(p, i, o, m)
  {
    var kind := At(p.board, i).value.kind;
    if PieceMove(p, i, m) {
      var to, flag :| PieceTarget(p, i, to, flag) && m in AddMove(p, i, to, flag);
      var o, n: nat :| o in Offsets(kind) && WalksTo(p.board, kind, i, o, n, to);
      assert StepMove(p, i, o, n, flag);
      assert DirectionMove(p, i, o, m);
    }
    forall o | o in Offsets(kind) && DirectionMove(p, i, o, m) ensures PieceMove(p, i, m) {
      var n: nat, flag :| StepMove(p, i, o, n, flag) && m in AddMove(p, i, Step(i, o, n), flag);
      assert WalksTo(p.board, kind, i, o, n, Step(i, o, n));
      assert PieceTarget(p, i, Step(i, o, n), flag);
    }
  }

  lemma OffsetBounds(kind: Kind, o: int)
    requires o in Offsets(kind)
    ensures -33 <= o <= 33 && o != 0
  {
  }

  method PieceMoves(p: Position, i: int) returns (moves: seq<Move>)
    requires OnBoard(i) && Own(p, i)
    ensures forall m :: m in moves <==> PieceMove(p, i, m)
  {
    var offsets := Offsets(At(p.board, i).value.kind);
    moves := [];
    for j := 0 to |offsets|
      invariant forall m :: m in moves <==> exists o :: o in offsets[..j] && DirectionMove(p, i, o, m)
    {
      OffsetBounds(At(p.board, i).value.kind, offsets[j]);
      var more := DirectionMoves(p, i, offsets[j]);
      assert offsets[..j + 1] == offsets[..j] + [offsets[j]];
      moves := moves + more;
    }
    assert offsets[..|offsets|] == offsets;
    forall m ensures m in moves <==> PieceMove(p, i, m) {
      PieceMoveDirections(p, i, m);
    }
  }

  // ----- the whole board -----

  method MovesFrom(p: Position, i: int) returns (moves: seq<Move>)
    requires OnBoard(i)
    ensures forall m :: m in moves <==> MoveFrom(p, i, m)
  {
    if !Own(p, i) {
      return [];
    }
    if At(p.board, i).value.kind.Pawn? {
      moves := PawnMoves(p, i);
    } else {
      moves := PieceMoves(p, i);
    }
  }

  ghost predicate SomeMove(p: Position, end: int, m: Move) {
    exists i :: i < end && MoveFrom(p, i, m)
  }

  method BoardMoves(p: Position) returns (moves: seq<Move>)
    ensures forall m :: m in moves <==> exists i :: MoveFrom(p, i, m)
  {
    moves := [];
    var i := A8;
    while i <= H1
      invariant 0 <= i <= 120 && i % 16 <= 8
      invariant forall m :: m in moves <==> SomeMove(p, i, m)
    {
      OffBoardExact(i);
      if OffBoard(i) {
        RestOfRank(i);
        i := i + 8;
        continue;
      }
      var more := MovesFrom(p, i);
      moves := moves + more;
      i := i + 1;
    }
    forall m, k | MoveFrom(p, k, m) ensures m in moves {
      assert OnBoard(k) && (k < i || k >= 120);
      assert SomeMove(p, i, m);
    }
  }

  method CastleMoves(p: Position) returns (moves: seq<Move>)
    requires Consistent(p)
    ensures forall m :: m in moves <==> CastleMove(p, Safe(p), m)
  {
    var king, them := p.kings.Of(p.turn), Swap(p.turn);
    moves := [];
    RightsPlaceKing(p);
    if p.castling.Of(p.turn).kingSide {
      if At(p.board, king + 1).None? && At(p.board, king + 2).None? {
        var a := Attacked(p.board, them, king);
        var b := Attacked(p.board, them, king + 1);
        var c := Attacked(p.board, them, king + 2);
        if !a && !b && !c {
          moves := moves + AddMove(p, king, king + 2, KingSide);
        }
      }
    }
    if p.castling.Of(p.turn).queenSide {
      if At(p.board, king - 1).None? && At(p.board, king - 2).None? && At(p.board, king - 3).None? {
        var a := Attacked(p.board, them, king);
        var b := Attacked(p.board, them, king - 1);
        var c := Attacked(p.board, them, king - 2);
        if !a && !b && !c {
          moves := moves + AddMove(p, king, king - 2, QueenSide);
        }
      }
    }
  }

  lemma RightsPlaceKing(p: Position)
    requires Consistent(p)
    ensures var king, rights := p.kings.Of(p.turn), p.castling.Of(p.turn);
            rights.kingSide || rights.queenSide ==>
              king == HomeKing(p.turn) && Holds(p.board, king, King, p.turn)
              && OnBoard(king) && OnBoard(king + 1) && OnBoard(king + 2) && OnBoard(king - 1) && OnBoard(king - 2)
  {
  }

  /** The generator finds exactly the pseudo-legal moves. */
  method PseudoLegalMoves(p: Position) returns (moves: seq<Move>)
    requires Consistent(p)
    ensures forall m :: m in moves <==> PseudoLegal(p, Safe(p), m)
  {
    var board := BoardMoves(p);
    var castles := CastleMoves(p);
    moves := board + castles;
  }
}
