/** Strings: splitting at a character, and decimal numbers. */
module Strings {
  import opened Positional

  function Split(s: string, at: char): (parts: seq<string>)
    ensures parts != []
  {
    if s == [] then [""]
    else
      var rest := Split(s[1..], at);
      if s[0] == at then [""] + rest else [[s[0]] + rest[0]] + rest[1..]
  }

  lemma {:induction false} SplitPart(part: string, at: char, rest: string)
    requires at !in part
    ensures Split(part + [at] + rest, at) == [part] + Split(rest, at)
  {
    var s := part + [at] + rest;
    if part == [] {
      assert s[0] == at && s[1..] == rest;
    } else {
      assert s[1..] == part[1..] + [at] + rest;
      SplitPart(part[1..], at, rest);
      assert [part[0]] + part[1..] == part;
    }
  }

  lemma {:induction false} SplitNone(s: string, at: char)
    requires at !in s
    ensures Split(s, at) == [s]
  {
    if s != [] {
      SplitNone(s[1..], at);
      assert [s[0]] + s[1..] == s;
    }
  }

  function Digit(d: nat): (c: char)
    requires d < 10
    ensures '0' <= c <= '9' && c as int == d + 48
  {
    (d + 48) as char
  }

  /** Decimal notation. */
  function Decimal(n: nat): (s: string)
    ensures s != [] && forall c :: c in s ==> '0' <= c <= '9'
  {
    if n < 10 then [Digit(n)] else Decimal(n / 10) + [Digit(n % 10)]
  }

  function ReadDecimal(s: string): int {
    if s == [] then 0 else ReadDecimal(s[..|s| - 1]) * 10 + (s[|s| - 1] as int - 48)
  }

  lemma {:induction false} DecimalReads(n: nat)
    ensures ReadDecimal(Decimal(n)) == n
  {
    var s := Decimal(n);
    if n < 10 {
      assert s[..0] == [];
    } else {
      DecimalReads(n / 10);
      assert s[..|s| - 1] == Decimal(n / 10);
    }
  }

  /** The numbers that the digits of a text stand for. */
  function DigitValues(s: string): (d: seq<int>)
    ensures |d| == |s|
  {
    seq(|s|, i requires 0 <= i < |s| => s[i] as int - 48)
  }

  /** Decimal notation puts the most significant digit first, and no zero before it. */
  lemma {:induction false} DecimalPlaces(n: nat)
    ensures Value(10, DigitValues(Decimal(n))) == n
    ensures n > 0 ==> Decimal(n)[0] != '0'
  {
    var s := Decimal(n);
    var d := DigitValues(s);
    if n >= 10 {
      DecimalPlaces(n / 10);
      assert d[..|d| - 1] == DigitValues(Decimal(n / 10));
    } else {
      assert d[..|d| - 1] == [];
    }
  }
}
