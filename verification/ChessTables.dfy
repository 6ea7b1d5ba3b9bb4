/** The lookup tables behind `attacked` (ATTACKS and RAYS), in rows of sixteen. */
module ChessTables {
  import opened ChessBoard
  import opened ChessMoves

  const ATTACKS: seq<seq<int>> := [
    [20, 0, 0, 0, 0, 0, 0, 24, 0, 0, 0, 0, 0, 0, 20, 0],
    [0, 20, 0, 0, 0, 0, 0, 24, 0, 0, 0, 0, 0, 20, 0, 0],
    [0, 0, 20, 0, 0, 0, 0, 24, 0, 0, 0, 0, 20, 0, 0, 0],
    [0, 0, 0, 20, 0, 0, 0, 24, 0, 0, 0, 20, 0, 0, 0, 0],
    [0, 0, 0, 0, 20, 0, 0, 24, 0, 0, 20, 0, 0, 0, 0, 0],
    [0, 0, 0, 0, 0, 20, 2, 24, 2, 20, 0, 0, 0, 0, 0, 0],
    [0, 0, 0, 0, 0, 2, 53, 56, 53, 2, 0, 0, 0, 0, 0, 0],
    [24, 24, 24, 24, 24, 24, 56, 0, 56, 24, 24, 24, 24, 24, 24, 0],
    [0, 0, 0, 0, 0, 2, 53, 56, 53, 2, 0, 0, 0, 0, 0, 0],
    [0, 0, 0, 0, 0, 20, 2, 24, 2, 20, 0, 0, 0, 0, 0, 0],
    [0, 0, 0, 0, 20, 0, 0, 24, 0, 0, 20, 0, 0, 0, 0, 0],
    [0, 0, 0, 20, 0, 0, 0, 24, 0, 0, 0, 20, 0, 0, 0, 0],
    [0, 0, 20, 0, 0, 0, 0, 24, 0, 0, 0, 0, 20, 0, 0, 0],
    [0, 20, 0, 0, 0, 0, 0, 24, 0, 0, 0, 0, 0, 20, 0, 0],
    [20, 0, 0, 0, 0, 0, 0, 24, 0, 0, 0, 0, 0, 0, 20]
  ]

  const RAYS: seq<seq<int>> := [
    [17, 0, 0, 0, 0, 0, 0, 16, 0, 0, 0, 0, 0, 0, 15, 0],
    [0, 17, 0, 0, 0, 0, 0, 16, 0, 0, 0, 0, 0, 15, 0, 0],
    [0, 0, 17, 0, 0, 0, 0, 16, 0, 0, 0, 0, 15, 0, 0, 0],
    [0, 0, 0, 17, 0, 0, 0, 16, 0, 0, 0, 15, 0, 0, 0, 0],
    [0, 0, 0, 0, 17, 0, 0, 16, 0, 0, 15, 0, 0, 0, 0, 0],
    [0, 0, 0, 0, 0, 17, 0, 16, 0, 15, 0, 0, 0, 0, 0, 0],
    [0, 0, 0, 0, 0, 0, 17, 16, 15, 0, 0, 0, 0, 0, 0, 0],
    [1, 1, 1, 1, 1, 1, 1, 0, -1, -1, -1, -1, -1, -1, -1, 0],
    [0, 0, 0, 0, 0, 0, -15, -16, -17, 0, 0, 0, 0, 0, 0, 0],
    [0, 0, 0, 0, 0, -15, 0, -16, 0, -17, 0, 0, 0, 0, 0, 0],
    [0, 0, 0, 0, -15, 0, 0, -16, 0, 0, -17, 0, 0, 0, 0, 0],
    [0, 0, 0, -15, 0, 0, 0, -16, 0, 0, 0, -17, 0, 0, 0, 0],
    [0, 0, -15, 0, 0, 0, 0, -16, 0, 0, 0, 0, -17, 0, 0, 0],
    [0, -15, 0, 0, 0, 0, 0, -16, 0, 0, 0, 0, 0, -17, 0, 0],
    [-15, 0, 0, 0, 0, 0, 0, -16, 0, 0, 0, 0, 0, 0, -17]
  ]

  function AbsOf(n: int): nat {
    if n < 0 then -n else n
  }

  /** Which pieces reach a square the given numbers of ranks and files away on an otherwise
      empty board. */
  predicate Aligned(kind: Kind, ranks: int, files: int) {
    var r, f := AbsOf(ranks), AbsOf(files);
    match kind
    case Pawn => r == 1 && f == 1
    case Knight => (r == 1 && f == 2) || (r == 2 && f == 1)
    case Bishop => r == f && r != 0
    case Rook => (r == 0) != (f == 0)
    case Queen => (r == f && r != 0) || ((r == 0) != (f == 0))
    case King => r <= 1 && f <= 1 && (r != 0 || f != 0)
  }

  function Shift(kind: Kind): nat {
    match kind
    case Pawn => 0
    case Knight => 1
    case Bishop => 2
    case Rook => 3
    case Queen => 4
    case King => 5
  }

  /** n & (1 << k). */
  predicate HasBit(n: int, k: nat) {
    match k
    case 0 => n % 2 == 1
    case 1 => n / 2 % 2 == 1
    case 2 => n / 4 % 2 == 1
    case 3 => n / 8 % 2 == 1
    case 4 => n / 16 % 2 == 1
    case _ => n / 32 % 2 == 1
  }

  /** The first table says which pieces are aligned with a square: entry (r, c) is for a
      piece r - 7 ranks and c - 7 files away. */
  lemma AttacksTable(r: nat, c: nat, kind: Kind)
    requires r < 15 && c < 15
    ensures HasBit(ATTACKS[r][c], Shift(kind)) <==> Aligned(kind, r - 7, c - 7)
  {
    if r < 5 {
      AttacksAbove(r, c, kind);
    } else if r < 10 {
      AttacksBeside(r, c, kind);
    } else {
      AttacksBelow(r, c, kind);
    }
  }

  lemma AttacksAbove(r: nat, c: nat, kind: Kind)
    requires r < 5 && c < 15
    ensures HasBit(ATTACKS[r][c], Shift(kind)) <==> Aligned(kind, r - 7, c - 7)
  {
  }

  lemma AttacksBeside(r: nat, c: nat, kind: Kind)
    requires 5 <= r < 10 && c < 15
    ensures HasBit(ATTACKS[r][c], Shift(kind)) <==> Aligned(kind, r - 7, c - 7)
  {
  }

  lemma AttacksBelow(r: nat, c: nat, kind: Kind)
    requires 10 <= r < 15 && c < 15
    ensures HasBit(ATTACKS[r][c], Shift(kind)) <==> Aligned(kind, r - 7, c - 7)
  {
  }

  function Sign(n: int): int {
    if n < 0 then -1 else if n > 0 then 1 else 0
  }

  /** The second table gives the step from an aligned slider towards the square. */
  lemma RaysTable(r: nat, c: nat)
    requires r < 15 && c < 15 && Aligned(Queen, r - 7, c - 7)
    ensures RAYS[r][c] == -16 * Sign(r - 7) - Sign(c - 7)
  {
  }

  /** `TABLE[i - square + 119]`; beyond the table there is nothing. */
  function Entry(table: seq<seq<int>>, i: int, square: int): int {
    var index := i - square + 119;
    var r, c := index / 16, index % 16;
    if 0 <= r < |table| && c < |table[r]| then table[r][c] else 0
  }

  function File(i: int): int {
    i % 16
  }

  lemma EntryOfSquares(table: seq<seq<int>>, i: int, square: int)
    requires OnBoard(i) && OnBoard(square) && |table| == 15 && forall r :: 0 <= r < 15 ==> |table[r]| >= 15
    ensures 0 <= Rank(i) - Rank(square) + 7 < 15 && 0 <= File(i) - File(square) + 7 < 15
    ensures Entry(table, i, square) == table[Rank(i) - Rank(square) + 7][File(i) - File(square) + 7]
  {
  }
}
