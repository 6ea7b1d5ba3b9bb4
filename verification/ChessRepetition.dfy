/** What makes two positions of a game the same, and when one occurs three times. */
module ChessRepetition {
  import opened Strings
  import opened ChessBoard
  import opened ChessMoves
  import opened ChessPlay
  import opened ChessConsistency
  import opened ChessFen
  import opened ChessLoad
  import opened ChessRoundTrip

  /** The first fields of the text, without the counters. */
  function KeyOf(p: Position): string {
    var parts := Split(Fen(p), ' ');
    Joined(if |parts| > 4 then parts[..4] else parts)
  }

  /** The same pieces, the same side to move, and the same moves allowed by the past. */
  predicate SamePosition(p: Position, q: Position) {
    p.board == q.board && p.turn == q.turn && p.castling == q.castling && p.epSquare == q.epSquare
  }

  /** Splitting at single spaces undoes joining. */
  lemma {:induction false} SplitJoined(fields: seq<string>)
    requires fields != [] && forall f :: f in fields ==> ' ' !in f
    ensures Split(Joined(fields), ' ') == fields
  {
    assert fields[0] in fields;
    if |fields| == 1 {
      SplitNone(fields[0], ' ');
    } else {
      assert forall f :: f in fields[1..] ==> f in fields;
      SplitJoined(fields[1..]);
      SplitPart(fields[0], ' ', Joined(fields[1..]));
    }
  }

  lemma KeyParts(p: Position, f: seq<string>)
    requires Consistent(p) && f == Fields(p)
    ensures |f| == 6 && KeyOf(p) == Joined(f[..4]) && Split(KeyOf(p), ' ') == f[..4]
  {
    FieldsRead(p);
    forall x | x in f ensures ' ' !in x {
      assert Clean(x);
    }
    SplitJoined(f);
    assert forall x :: x in f[..4] ==> x in f;
    SplitJoined(f[..4]);
  }

  lemma SameKey(p: Position, q: Position)
    requires Consistent(p) && Consistent(q) && SamePosition(p, q)
    ensures KeyOf(p) == KeyOf(q)
  {
    var f, g := Fields(p), Fields(q);
    KeyParts(p, f);
    KeyParts(q, g);
    assert f[..4] == g[..4];
  }

  /** Equal keys are equal positions, counters aside. */
  lemma KeyIsPosition(p: Position, q: Position)
    requires Consistent(p) && Consistent(q)
    ensures KeyOf(p) == KeyOf(q) <==> SamePosition(p, q)
  {
    if SamePosition(p, q) {
      SameKey(p, q);
    }
    if KeyOf(p) == KeyOf(q) {
      var f, g := Fields(p), Fields(q);
      KeyParts(p, f);
      KeyParts(q, g);
      assert forall i :: 0 <= i < 4 ==> f[i] == f[..4][i] && g[i] == g[..4][i];
      BoardReads(p);
      BoardReads(q);
      OtherFieldsRead(p, f);
      OtherFieldsRead(q, g);
    }
  }

  // ----- counting -----

  function KeysOf(ps: seq<Position>): (keys: seq<string>)
    ensures |keys| == |ps| && forall i :: 0 <= i < |ps| ==> keys[i] == KeyOf(ps[i])
  {
    seq(|ps|, i requires 0 <= i < |ps| => KeyOf(ps[i]))
  }

  /** How often a key occurs among the first n. */
  ghost function Occurrences(keys: seq<string>, n: nat, key: string): nat
    requires n <= |keys|
    decreases n, keys
  {
    if n == 0 then 0 else Occurrences(keys, n - 1, key) + if keys[n - 1] == key then 1 else 0
  }

  ghost predicate Repeats(keys: seq<string>, n: nat)
    requires n <= |keys|
  {
    exists key :: Occurrences(keys, n, key) >= 3
  }

  /** A key that occurs among the first n has a last place there. */
  lemma {:induction false} LastPlace(keys: seq<string>, n: nat, key: string) returns (i: nat)
    requires n <= |keys| && Occurrences(keys, n, key) >= 1
    ensures i < n && keys[i] == key && Occurrences(keys, i, key) == Occurrences(keys, n, key) - 1
  {
    if keys[n - 1] == key {
      i := n - 1;
    } else {
      i := LastPlace(keys, n - 1, key);
    }
  }

  lemma {:induction false} OneMorePlace(keys: seq<string>, i: nat, n: nat, key: string)
    requires i < n <= |keys| && keys[i] == key
    ensures Occurrences(keys, n, key) >= Occurrences(keys, i, key) + 1
    decreases n
  {
    if i < n - 1 {
      OneMorePlace(keys, i, n - 1, key);
    }
  }

  ghost predicate AtThree(keys: seq<string>, i: nat, j: nat, k: nat) {
    i < j < k < |keys| && keys[i] == keys[j] == keys[k]
  }

  lemma ThreePlaces(keys: seq<string>)
    ensures Repeats(keys, |keys|) <==> exists i: nat, j: nat, k: nat :: AtThree(keys, i, j, k)
  {
    if Repeats(keys, |keys|) {
      var key :| Occurrences(keys, |keys|, key) >= 3;
      var k := LastPlace(keys, |keys|, key);
      var j := LastPlace(keys, k, key);
      var i := LastPlace(keys, j, key);
      assert AtThree(keys, i, j, k);
    }
    forall i: nat, j: nat, k: nat | AtThree(keys, i, j, k) ensures Repeats(keys, |keys|) {
      OneMorePlace(keys, i, j, keys[i]);
      OneMorePlace(keys, j, k, keys[i]);
      OneMorePlace(keys, k, |keys|, keys[i]);
    }
  }

  /** Some position stands at three places of the game. */
  ghost predicate ThreeAlike(ps: seq<Position>) {
    exists i: nat, j: nat, k: nat {:trigger SamePosition(ps[i], ps[j]), SamePosition(ps[j], ps[k])} ::
      i < j < k < |ps| && SamePosition(ps[i], ps[j]) && SamePosition(ps[j], ps[k])
  }

  ghost predicate SameAt(ps: seq<Position>, keys: seq<string>, i: nat, j: nat)
    requires |keys| == |ps|
  {
    i < |ps| && j < |ps| ==> (keys[i] == keys[j] <==> SamePosition(ps[i], ps[j]))
  }

  lemma AlikeIsThree(ps: seq<Position>, keys: seq<string>)
    requires |keys| == |ps| && forall i: nat, j: nat {:trigger SameAt(ps, keys, i, j)} :: SameAt(ps, keys, i, j)
    ensures ThreeAlike(ps) <==> exists i: nat, j: nat, k: nat :: AtThree(keys, i, j, k)
  {
    if i: nat, j: nat, k: nat :| AtThree(keys, i, j, k) {
      assert SameAt(ps, keys, i, j) && SameAt(ps, keys, j, k);
    }
    if ThreeAlike(ps) {
      var i: nat, j: nat, k: nat :|
        i < j < k < |ps| && SamePosition(ps[i], ps[j]) && SamePosition(ps[j], ps[k]);
      assert SameAt(ps, keys, i, j) && SameAt(ps, keys, j, k);
      assert AtThree(keys, i, j, k);
    }
  }

  /** A key is counted three times exactly if some position occurred three times. */
  lemma RepeatsAreAlike(ps: seq<Position>, keys: seq<string>)
    requires (forall p :: p in ps ==> Consistent(p)) && keys == KeysOf(ps)
    ensures Repeats(keys, |ps|) <==> ThreeAlike(ps)
  {
    ThreePlaces(keys);
    forall i: nat, j: nat ensures SameAt(ps, keys, i, j) {
      if i < |ps| && j < |ps| {
        KeyIsPosition(ps[i], ps[j]);
      }
    }
    AlikeIsThree(ps, keys);
  }
}
