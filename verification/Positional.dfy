/** Big-endian positional numerals and the lexicographic order on them.

    Keys are compared byte by byte, record identifiers character by character, and
    clocks as numbers.  The lemmas of this module are what makes those comparisons
    agree: on digit strings of equal length, lexicographic order is numeric order. */
module Positional {

  /** Digits are drawn from 0..base-1. */
  ghost predicate Digital(base: nat, s: seq<int>) {
    forall i :: 0 <= i < |s| ==> 0 <= s[i] < base
  }

  /** The number a digit string denotes, most significant digit first. */
  function Value(base: nat, s: seq<int>): int {
    if s == [] then 0 else Value(base, s[..|s| - 1]) * base + s[|s| - 1]
  }

  /** The last `count` digits of a number. */
  function Digits(base: nat, count: nat, n: nat): (s: seq<int>)
    requires base > 1
    ensures |s| == count && Digital(base, s)
    decreases count
  {
    if count == 0 then [] else Digits(base, count - 1, n / base) + [n % base]
  }

  /** The number of digit strings of a given length. */
  function Power(base: nat, count: nat): (p: nat)
    ensures base > 0 ==> p > 0
  {
    if count == 0 then 1 else Power(base, count - 1) * base
  }

  /** Lexicographic order; a proper prefix comes first. */
  predicate LexLess(a: seq<int>, b: seq<int>) {
    if b == [] then false
    else if a == [] then true
    else if a[0] != b[0] then a[0] < b[0]
    else LexLess(a[1..], b[1..])
  }

  lemma {:induction false} ValueBounds(base: nat, s: seq<int>)
    requires base > 0 && Digital(base, s)
    ensures 0 <= Value(base, s) < Power(base, |s|)
  {
    if s == [] {
    } else {
      var front := s[..|s| - 1];
      ValueBounds(base, front);
      assert Value(base, front) * base <= (Power(base, |front|) - 1) * base;
    }
  }

  /** Splitting off a common first part leaves the comparison to the rest. */
  lemma {:induction false} LexLessPrefix(p: seq<int>, a: seq<int>, b: seq<int>)
    ensures LexLess(p + a, p + b) == LexLess(a, b)
  {
    if p == [] {
      assert p + a == a && p + b == b;
    } else {
      assert (p + a)[1..] == p[1..] + a && (p + b)[1..] == p[1..] + b;
      LexLessPrefix(p[1..], a, b);
    }
  }

  /** Different first parts of equal length decide the comparison. */
  lemma {:induction false} LexLessDecided(p: seq<int>, q: seq<int>, a: seq<int>, b: seq<int>)
    requires |p| == |q| && p != q
    ensures LexLess(p + a, q + b) == LexLess(p, q)
  {
    if p[0] == q[0] {
      assert p == [p[0]] + p[1..] && q == [q[0]] + q[1..];
      assert (p + a)[1..] == p[1..] + a && (q + b)[1..] == q[1..] + b;
      LexLessDecided(p[1..], q[1..], a, b);
    }
  }

  /** LexLess is a strict total order. */
  lemma {:induction false} LexTotal(a: seq<int>, b: seq<int>)
    ensures !(LexLess(a, b) && LexLess(b, a))
    ensures LexLess(a, b) || LexLess(b, a) || a == b
    ensures !LexLess(a, a)
  {
    if a != [] && b != [] {
      assert a == [a[0]] + a[1..] && b == [b[0]] + b[1..];
      LexTotal(a[1..], b[1..]);
    } else if a != [] {
      LexTotal(a[1..], []);
    }
  }

  lemma {:induction false} LexTransitive(a: seq<int>, b: seq<int>, c: seq<int>)
    requires LexLess(a, b) && LexLess(b, c)
    ensures LexLess(a, c)
  {
    if a != [] && a[0] == b[0] == c[0] {
      LexTransitive(a[1..], b[1..], c[1..]);
    }
  }

  /** On digit strings of equal length, lexicographic order is numeric order. */
  lemma {:induction false} LexIsNumeric(base: nat, a: seq<int>, b: seq<int>)
    requires base > 0 && Digital(base, a) && Digital(base, b) && |a| == |b|
    ensures LexLess(a, b) <==> Value(base, a) < Value(base, b)
    ensures a == b <==> Value(base, a) == Value(base, b)
  {
    if a == [] {
    } else {
      var p, q := a[..|a| - 1], b[..|b| - 1];
      var x, y := a[|a| - 1], b[|b| - 1];
      assert a == p + [x] && b == q + [y];
      LexIsNumeric(base, p, q);
      LastDigitDecides(base, Value(base, p), Value(base, q), x, y);
      if p == q {
        LexLessPrefix(p, [x], [y]);
      } else {
        LexLessDecided(p, q, [x], [y]);
      }
    }
  }

  lemma LastDigitDecides(base: nat, u: int, v: int, x: int, y: int)
    requires 0 <= x < base && 0 <= y < base
    ensures u < v ==> u * base + x < v * base + y
    ensures v < u ==> v * base + y < u * base + x
  {
    if u < v {
      Scaled(u + 1, v, base);
    } else if v < u {
      Scaled(v + 1, u, base);
    }
  }

  /** Writing a number in `count` digits and reading it back. */
  lemma {:induction false} ReadBack(base: nat, count: nat, n: nat)
    requires base > 1 && n < Power(base, count)
    ensures Value(base, Digits(base, count, n)) == n
  {
    if count > 0 {
      var q, r := n / base, n % base;
      QuotientBound(base, n, Power(base, count - 1));
      ReadBack(base, count - 1, q);
      ValueAppend(base, Digits(base, count - 1, q), r);
      Quotient(base, n);
    }
  }

  lemma ValueAppend(base: nat, front: seq<int>, last: int)
    ensures Value(base, front + [last]) == Value(base, front) * base + last
  {
  }

  /** Reading a digit string and writing the number again. */
  lemma {:induction false} WriteBack(base: nat, s: seq<int>)
    requires base > 1 && Digital(base, s)
    ensures Value(base, s) >= 0 && Digits(base, |s|, Value(base, s)) == s
  {
    if s != [] {
      var front := s[..|s| - 1];
      WriteBack(base, front);
      DivideStep(base, Value(base, front), s[|s| - 1]);
      assert s == front + [s[|s| - 1]];
    }
  }

  lemma Scaled(a: int, b: int, c: nat)
    requires a <= b
    ensures a * c <= b * c
  {
  }

  lemma Quotient(base: nat, n: nat)
    requires base > 0
    ensures n == (n / base) * base + n % base && 0 <= n % base < base && n / base >= 0
  {
  }

  lemma MultipleBelow(k: int, base: nat)
    requires 0 < k * base + base && k * base < base
    ensures k == 0
  {
  }

  lemma DivideStep(base: nat, q: nat, r: nat)
    requires r < base
    ensures (q * base + r) / base == q && (q * base + r) % base == r
  {
    var n := q * base + r;
    var d, m := n / base, n % base;
    Quotient(base, n);
    assert (d - q) * base == d * base - q * base == r - m;
    MultipleBelow(d - q, base);
  }

  lemma QuotientBound(base: nat, n: nat, p: nat)
    requires base > 0 && n < p * base
    ensures n / base < p
  {
  }
}
