/** Table-driven attack detection (`attacked`) against the moves pieces make. */
module ChessAttacks {
  import opened Options
  import opened ChessBoard
  import opened ChessMoves
  import opened ChessTables

  // ----- the geometry of a walk -----

  predicate SlidingOffset(o: int) {
    o == 17 || o == 16 || o == 15 || o == 1 || o == -1 || o == -15 || o == -16 || o == -17
  }

  function RankStep(o: int): int {
    if o >= 15 then 1 else if o <= -15 then -1 else 0
  }

  function FileStep(o: int): int {
    if o == 17 || o == 1 || o == -15 then 1 else if o == -17 || o == -1 || o == 15 then -1 else 0
  }

  /** n times a step of -1, 0 or 1. */
  function Scale(d: int, n: nat): int {
    if d == 0 then 0 else if d > 0 then n else 0 - n
  }

  lemma OneStep(x: int, o: int)
    requires OnBoard(x) && OnBoard(x + o) && SlidingOffset(o)
    ensures Rank(x + o) == Rank(x) + RankStep(o) && File(x + o) == File(x) + FileStep(o)
  {
  }

  lemma {:induction false} WalkGeometry(b: Board, i: int, o: int, n: nat)
    requires OnBoard(i) && SlidingOffset(o) && Walk(b, i, o, n)
    ensures Rank(Step(i, o, n)) == Rank(i) + Scale(RankStep(o), n)
    ensures File(Step(i, o, n)) == File(i) + Scale(FileStep(o), n)
  {
    if n == 1 {
      assert Step(i, o, 0) == i;
      OneStep(i, o);
    } else {
      assert OnBoard(Step(i, o, n - 1));
      WalkGeometry(b, i, o, n - 1);
      OneStep(Step(i, o, n - 1), o);
    }
  }

  /** How far apart two aligned squares are. */
  function Distance(ranks: int, files: int): nat {
    if AbsOf(ranks) >= AbsOf(files) then AbsOf(ranks) else AbsOf(files)
  }

  /** A sliding walk to a square goes along the ray of the table, as far as the square. */
  lemma WalkIsRay(b: Board, i: int, o: int, n: nat, square: int)
    requires OnBoard(i) && OnBoard(square) && SlidingOffset(o) && Walk(b, i, o, n) && Step(i, o, n) == square
    ensures var ranks, files := Rank(i) - Rank(square), File(i) - File(square);
            o == -16 * Sign(ranks) - Sign(files) && n == Distance(ranks, files) && Aligned(Queen, ranks, files)
            && (Aligned(Bishop, ranks, files) <==> RankStep(o) != 0 && FileStep(o) != 0)
  {
    WalkGeometry(b, i, o, n);
  }

  /** The square reached by following a ray k steps. */
  lemma {:induction false} RaySquare(i: int, sr: int, sf: int, k: nat)
    requires -1 <= sr <= 1 && -1 <= sf <= 1
    ensures Step(i, -16 * sr - sf, k) == i - 16 * Scale(sr, k) - Scale(sf, k)
  {
    if k > 0 {
      RaySquare(i, sr, sf, k - 1);
    }
  }

  /** From an aligned slider, the ray of the table leads over the board to the square, and
      meets it only there. */
  lemma RayReaches(i: int, square: int, k: nat)
    requires OnBoard(i) && OnBoard(square)
    requires Aligned(Queen, Rank(i) - Rank(square), File(i) - File(square))
    requires 1 <= k <= Distance(Rank(i) - Rank(square), File(i) - File(square))
    ensures var ranks, files := Rank(i) - Rank(square), File(i) - File(square);
            var x := Step(i, -16 * Sign(ranks) - Sign(files), k);
            OnBoard(x) && (x == square <==> k == Distance(ranks, files))
  {
    var ranks, files := Rank(i) - Rank(square), File(i) - File(square);
    RaySquare(i, Sign(ranks), Sign(files), k);
    OnRay(Rank(i), Rank(square), k, Distance(ranks, files));
    OnRay(File(i), File(square), k, Distance(ranks, files));
    FromCoordinates(i, Rank(i), File(i));
    FromCoordinates(square, Rank(square), File(square));
    FromCoordinates(Step(i, -16 * Sign(ranks) - Sign(files), k),
      Rank(i) - Scale(Sign(ranks), k), File(i) - Scale(Sign(files), k));
  }

  /** A coordinate on the way from x to y. */
  lemma OnRay(x: int, y: int, k: nat, n: nat)
    requires 0 <= x < 8 && 0 <= y < 8 && 1 <= k <= n && (x == y || AbsOf(x - y) == n)
    ensures 0 <= x - Scale(Sign(x - y), k) < 8
    ensures x != y ==> (x - Scale(Sign(x - y), k) == y <==> k == n)
    ensures x == y ==> x - Scale(Sign(x - y), k) == y
  {
  }

  lemma FromCoordinates(x: int, r: int, f: int)
    requires 0 <= r < 8 && 0 <= f < 8
    ensures x == 16 * r + f <==> OnBoard(x) && Rank(x) == r && File(x) == f
  {
  }

  // ----- attacks -----

  /** The piece on square i makes moves to the square: pawns capture one step ahead and to
      the side, other pieces walk.  A missing king counts as standing beside the board. */
  ghost predicate AttackedFrom(b: Board, color: Color, square: int, i: int) {
    OnBoard(i) && At(b, i).Some? && At(b, i).value.color == color
    && if square == EMPTY then HitsBeside(b, At(b, i).value, i)
       else if At(b, i).value.kind.Pawn? then square == i + Forward(color) - 1 || square == i + Forward(color) + 1
       else Reaches(b, At(b, i).value.kind, i, square)
  }

  /** The piece is aimed at the place to the left of A8, which has the number of a missing king,
      from at most seven files away, and nothing stands between. */
  ghost predicate HitsBeside(b: Board, piece: Piece, i: int) {
    var ranks, files := Rank(i), File(i) + 1;
    Aligned(piece.kind, ranks, files) && files < 8
    && match piece.kind
       case Pawn => piece.color.White?
       case Knight => true
       case King => true
       case _ => ClearFor(b, i, -16 * Sign(ranks) - 1, Distance(ranks, files))
  }

  ghost predicate IsAttacked(b: Board, color: Color, square: int) {
    exists i :: AttackedFrom(b, color, square, i)
  }

  /** The ray of the table is clear of pieces as far as the square. */
  ghost predicate RayClear(b: Board, i: int, square: int) {
    var ranks, files := Rank(i) - Rank(square), File(i) - File(square);
    ClearFor(b, i, -16 * Sign(ranks) - Sign(files), Distance(ranks, files))
  }

  ghost predicate ClearFor(b: Board, i: int, offset: int, n: nat) {
    forall k: nat {:trigger Step(i, offset, k)} :: 1 <= k < n ==> At(b, Step(i, offset, k)).None?
  }

  lemma SliderOffsets(kind: Kind, o: int)
    requires kind.Bishop? || kind.Rook? || kind.Queen?
    ensures o in Offsets(kind) <==>
            SlidingOffset(o) && (kind.Bishop? ==> RankStep(o) != 0 && FileStep(o) != 0)
            && (kind.Rook? ==> RankStep(o) == 0 || FileStep(o) == 0)
  {
  }

  /** A slider reaches a square exactly if it is aligned with it and the ray is clear. */
  lemma SliderReaches(b: Board, kind: Kind, i: int, square: int)
    requires OnBoard(i) && OnBoard(square) && (kind.Bishop? || kind.Rook? || kind.Queen?)
    ensures Reaches(b, kind, i, square)
            <==> Aligned(kind, Rank(i) - Rank(square), File(i) - File(square)) && RayClear(b, i, square)
  {
    var ranks, files := Rank(i) - Rank(square), File(i) - File(square);
    if Reaches(b, kind, i, square) {
      var o, n: nat :| o in Offsets(kind) && WalksTo(b, kind, i, o, n, square);
      SliderOffsets(kind, o);
      WalkIsRay(b, i, o, n, square);
    }
    if Aligned(kind, ranks, files) && RayClear(b, i, square) {
      SliderOffsets(kind, -16 * Sign(ranks) - Sign(files));
      ClearRayWalks(b, kind, i, square);
    }
  }

  lemma ClearRayWalks(b: Board, kind: Kind, i: int, square: int)
    requires OnBoard(i) && OnBoard(square) && !SingleStep(kind)
    requires Aligned(Queen, Rank(i) - Rank(square), File(i) - File(square)) && RayClear(b, i, square)
    ensures var ranks, files := Rank(i) - Rank(square), File(i) - File(square);
            WalksTo(b, kind, i, -16 * Sign(ranks) - Sign(files), Distance(ranks, files), square)
  {
    var ranks, files := Rank(i) - Rank(square), File(i) - File(square);
    var o, n := -16 * Sign(ranks) - Sign(files), Distance(ranks, files);
    RayReaches(i, square, n);
    forall k: nat | 1 <= k < n ensures OnBoard(Step(i, o, k)) {
      RayReaches(i, square, k);
    }
  }

  lemma StepperOffsets(kind: Kind, i: int, square: int)
    requires OnBoard(i) && OnBoard(square) && SingleStep(kind)
    ensures square - i in Offsets(kind) <==> Aligned(kind, Rank(i) - Rank(square), File(i) - File(square))
  {
  }

  /** A knight or king reaches a square exactly if it is aligned with it. */
  lemma StepperReaches(b: Board, kind: Kind, i: int, square: int)
    requires OnBoard(i) && OnBoard(square) && SingleStep(kind)
    ensures Reaches(b, kind, i, square) <==> Aligned(kind, Rank(i) - Rank(square), File(i) - File(square))
  {
    StepperOffsets(kind, i, square);
    assert Step(i, square - i, 0) == i && Step(i, square - i, 1) == square;
    if Reaches(b, kind, i, square) {
      var o, n: nat :| o in Offsets(kind) && WalksTo(b, kind, i, o, n, square);
      assert Step(i, o, 0) == i;
    }
    if Aligned(kind, Rank(i) - Rank(square), File(i) - File(square)) {
      assert WalksTo(b, kind, i, square - i, 1, square);
    }
  }

  lemma PawnAligned(i: int, square: int, color: Color)
    requires OnBoard(i) && OnBoard(square)
    ensures (square == i + Forward(color) - 1 || square == i + Forward(color) + 1)
            <==> Aligned(Pawn, Rank(i) - Rank(square), File(i) - File(square)) && (i - square > 0 <==> color.White?)
  {
  }

  lemma TableBit(i: int, square: int, kind: Kind)
    requires OnBoard(i) && OnBoard(square)
    ensures HasBit(Entry(ATTACKS, i, square), Shift(kind))
            <==> Aligned(kind, Rank(i) - Rank(square), File(i) - File(square))
  {
    EntryOfSquares(ATTACKS, i, square);
    AttacksTable(Rank(i) - Rank(square) + 7, File(i) - File(square) + 7, kind);
  }

  lemma TableRay(i: int, square: int)
    requires OnBoard(i) && OnBoard(square) && Aligned(Queen, Rank(i) - Rank(square), File(i) - File(square))
    ensures Entry(RAYS, i, square) == -16 * Sign(Rank(i) - Rank(square)) - Sign(File(i) - File(square))
  {
    EntryOfSquares(RAYS, i, square);
    RaysTable(Rank(i) - Rank(square) + 7, File(i) - File(square) + 7);
  }

  /** The inner loop: follows the ray until it meets the square or a piece. */
  method FollowRay(b: Board, i: int, offset: int, square: int, ghost n: nat) returns (clear: bool)
    requires n >= 1 && Step(i, offset, n) == square
    requires forall k: nat {:trigger Step(i, offset, k)} :: 1 <= k < n ==> Step(i, offset, k) != square
    ensures clear == ClearFor(b, i, offset, n)
  {
    var j := i + offset;
    ghost var k: nat := 1;
    assert Step(i, offset, 0) == i;
    while j != square
      invariant 1 <= k <= n && j == Step(i, offset, k)
      invariant ClearFor(b, i, offset, k)
      decreases n - k
    {
      if At(b, j).Some? {
        return false;
      }
      j := j + offset;
      k := k + 1;
    }
    assert k == n;
    clear := true;
  }

  lemma EntryBeside(table: seq<seq<int>>, i: int)
    requires OnBoard(i) && |table| == 15 && forall r :: 0 <= r < 15 ==> 15 <= |table[r]| <= 16
    ensures 0 <= Rank(i) + 7 < 15 && 0 <= File(i) < 8
    ensures File(i) < 7 ==> Entry(table, i, EMPTY) == table[Rank(i) + 7][File(i) + 8]
    ensures File(i) == 7 ==>
              Entry(table, i, EMPTY) == if |table[Rank(i) + 7]| == 16 then table[Rank(i) + 7][15] else 0
  {
  }

  lemma TableBitBeside(i: int, kind: Kind)
    requires OnBoard(i)
    ensures HasBit(Entry(ATTACKS, i, EMPTY), Shift(kind))
            <==> Aligned(kind, Rank(i), File(i) + 1) && File(i) < 7
  {
    EntryBeside(ATTACKS, i);
    if File(i) < 7 {
      AttacksTable(Rank(i) + 7, File(i) + 8, kind);
    } else {
      LastColumn(Rank(i) + 7);
    }
  }

  lemma LastColumn(r: nat)
    requires r < 15
    ensures |ATTACKS[r]| == 16 ==> ATTACKS[r][15] == 0
  {
  }

  lemma TableRayBeside(i: int)
    requires OnBoard(i) && File(i) < 7 && Aligned(Queen, Rank(i), File(i) + 1)
    ensures Entry(RAYS, i, EMPTY) == -16 * Sign(Rank(i)) - 1
  {
    EntryBeside(RAYS, i);
    RaysTable(Rank(i) + 7, File(i) + 8);
  }

  /** The ray meets the place beside the board after as many steps as there are files. */
  lemma RayReachesBeside(i: int, k: nat)
    requires OnBoard(i) && Aligned(Queen, Rank(i), File(i) + 1)
    ensures Distance(Rank(i), File(i) + 1) == File(i) + 1
    ensures Step(i, -16 * Sign(Rank(i)) - 1, k) == EMPTY <==> k == File(i) + 1
  {
    RaySquare(i, Sign(Rank(i)), 1, k);
    assert i == 16 * Rank(i) + File(i);
  }

  /** The inner loop, from a piece that the first table finds aligned. */
  method RayIsClear(b: Board, i: int, square: int) returns (clear: bool)
    requires OnBoard(i) && (OnBoard(square) || square == EMPTY)
    requires OnBoard(square) ==> Aligned(Queen, Rank(i) - Rank(square), File(i) - File(square))
    requires square == EMPTY ==> Aligned(Queen, Rank(i), File(i) + 1) && File(i) < 7
    ensures OnBoard(square) ==> clear == RayClear(b, i, square)
    ensures square == EMPTY ==>
              clear == ClearFor(b, i, -16 * Sign(Rank(i)) - 1, Distance(Rank(i), File(i) + 1))
  {
    var offset := Entry(RAYS, i, square);
    ghost var n := RayEnds(i, square, offset);
    clear := FollowRay(b, i, offset, square, n);
  }

  /** Where the ray of the second table meets the square. */
  lemma RayEnds(i: int, square: int, offset: int) returns (n: nat)
    requires OnBoard(i) && (OnBoard(square) || square == EMPTY) && offset == Entry(RAYS, i, square)
    requires OnBoard(square) ==> Aligned(Queen, Rank(i) - Rank(square), File(i) - File(square))
    requires square == EMPTY ==> Aligned(Queen, Rank(i), File(i) + 1) && File(i) < 7
    ensures n >= 1 && Step(i, offset, n) == square
    ensures forall k: nat {:trigger Step(i, offset, k)} :: 1 <= k < n ==> Step(i, offset, k) != square
    ensures OnBoard(square) ==>
              n == Distance(Rank(i) - Rank(square), File(i) - File(square))
              && offset == -16 * Sign(Rank(i) - Rank(square)) - Sign(File(i) - File(square))
    ensures square == EMPTY ==> n == Distance(Rank(i), File(i) + 1) && offset == -16 * Sign(Rank(i)) - 1
  {
    if square == EMPTY {
      n := Distance(Rank(i), File(i) + 1);
      TableRayBeside(i);
      forall k: nat ensures Step(i, offset, k) == EMPTY <==> k == n {
        RayReachesBeside(i, k);
      }
    } else {
      n := Distance(Rank(i) - Rank(square), File(i) - File(square));
      TableRay(i, square);
      forall k: nat | 1 <= k <= n ensures Step(i, offset, k) == square <==> k == n {
        RayReaches(i, square, k);
      }
    }
  }

  /** The test of one square. */
  method Attacks(b: Board, color: Color, square: int, i: int) returns (r: bool)
    requires OnBoard(i) && (OnBoard(square) || square == EMPTY)
    ensures r == AttackedFrom(b, color, square, i)
  {
    if At(b, i).None? || At(b, i).value.color != color {
      return false;
    }
    var piece := At(b, i).value;
    if square == EMPTY {
      TableBitBeside(i, piece.kind);
    } else {
      TableBit(i, square, piece.kind);
      ReachesIfAligned(b, i, square, piece);
    }
    if !HasBit(Entry(ATTACKS, i, square), Shift(piece.kind)) {
      return false;
    }
    if piece.kind.Pawn? {
      return if i - square > 0 then piece.color.White? else piece.color.Black?;
    }
    if piece.kind.Knight? || piece.kind.King? {
      return true;
    }
    r := RayIsClear(b, i, square);
  }

  /** What alignment with a square of the board means for each piece. */
  lemma ReachesIfAligned(b: Board, i: int, square: int, piece: Piece)
    requires OnBoard(i) && OnBoard(square) && At(b, i) == Some(piece)
    ensures AttackedFrom(b, piece.color, square, i)
            <==> Aligned(piece.kind, Rank(i) - Rank(square), File(i) - File(square))
                 && match piece.kind
                    case Pawn => i - square > 0 <==> piece.color.White?
                    case Knight => true
                    case King => true
                    case _ => RayClear(b, i, square)
  {
    match piece.kind {
      case Pawn => PawnAligned(i, square, piece.color);
      case Knight => StepperReaches(b, piece.kind, i, square);
      case King => StepperReaches(b, piece.kind, i, square);
      case _ => SliderReaches(b, piece.kind, i, square);
    }
  }

  /** `attacked`: the tables find an attack exactly if some piece of the colour makes moves
      to the square; the number of a missing king is taken for a place beside the board. */
  method Attacked(b: Board, color: Color, square: int) returns (r: bool)
    requires OnBoard(square) || square == EMPTY
    ensures r == IsAttacked(b, color, square)
  {
    var i := A8;
    while i <= H1
      invariant 0 <= i <= 120 && i % 16 <= 8
      invariant forall k :: k < i ==> !AttackedFrom(b, color, square, k)
    {
      if OffBoard(i) {
        OffBoardExact(i);
        RestOfRank(i);
        i := i + 8;
        continue;
      }
      OffBoardExact(i);
      var hit := Attacks(b, color, square, i);
      if hit {
        return true;
      }
      i := i + 1;
    }
    r := false;
  }

  lemma RestOfRank(i: int)
    requires 0 <= i < 128 && i % 16 == 8
    ensures (i + 8) % 16 == 0 && forall k :: i <= k < i + 8 ==> !OnBoard(k)
  {
  }
}
