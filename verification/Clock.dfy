/** The "reverse" unsigned varint that message keys start with (clock.ts).

    JavaScript's bit operators work on 32-bit signed integers; `ToInt32` and `Shl32`
    write that truncation out, so the encoder and decoder below behave as the program
    does on every clock, including those the 32-bit shifts cut short. */
module Clock {
  import opened Positional

  type byte = b: int | 0 <= b < 256

  /** The conversion JavaScript applies to the operands and results of <<, >> and &. */
  function ToInt32(x: int): int {
    if -0x8000_0000 <= x < 0x8000_0000 then x
    else (x + 0x8000_0000) % 0x1_0000_0000 - 0x8000_0000
  }

  /** x << n, where only the low five bits of n count. */
  function Shl32(x: int, n: nat): int {
    ToInt32(x * Power(2, n % 32))
  }

  /** What `clock >>= 7` leaves. */
  function Shift7(clock: int): (r: int)
    ensures clock > 0 ==> r < clock
  {
    ToInt32(clock) / 128
  }

  /** The 7-bit sets of a clock, least significant first, as the encoder collects them. */
  function Septets(clock: int): seq<int>
    decreases clock
  {
    if clock <= 0 then [] else [clock % 128] + Septets(Shift7(clock))
  }

  /** The bytes of a clock that is followed by more sets: continuation bit on. */
  function Continued(clock: int): (s: seq<byte>)
    decreases clock
  {
    if clock <= 0 then [] else Continued(Shift7(clock)) + [clock % 128 + 128]
  }

  /** The encoding of a clock, most significant set first. */
  function Encoded(clock: nat): (s: seq<byte>) {
    if clock == 0 then [0] else Continued(Shift7(clock)) + [clock % 128]
  }

  lemma {:induction false} ContinuedSeptets(clock: int)
    ensures |Continued(clock)| == |Septets(clock)|
    ensures forall j :: 0 <= j < |Septets(clock)| ==>
              Continued(clock)[j] == Septets(clock)[|Septets(clock)| - 1 - j] + 128
    decreases clock
  {
    if clock > 0 {
      ContinuedSeptets(Shift7(clock));
    }
  }

  lemma EncodedSeptets(clock: nat)
    requires clock > 0
    ensures |Encoded(clock)| == |Septets(clock)|
    ensures forall j :: 0 <= j < |Septets(clock)| ==>
              Encoded(clock)[j] ==
              Septets(clock)[|Septets(clock)| - 1 - j] + if j < |Septets(clock)| - 1 then 128 else 0
  {
    var x, rest := clock % 128, Shift7(clock);
    ContinuedSeptets(rest);
    JoinSets(Continued(rest), Septets(rest), x);
  }

  lemma JoinSets(bytes: seq<byte>, sets: seq<int>, x: int)
    requires |bytes| == |sets| && 0 <= x < 128
    requires forall j :: 0 <= j < |sets| ==> bytes[j] == sets[|sets| - 1 - j] + 128
    ensures var all := [x] + sets;
            forall j :: 0 <= j < |all| ==>
              (bytes + [x])[j] == all[|all| - 1 - j] + if j < |all| - 1 then 128 else 0
  {
  }

  /** Writes the clock at the front of `key` and returns the number of bytes written. */
  method EncodeClock(key: array<byte>, clock: nat) returns (length: nat)
    requires |Encoded(clock)| <= key.Length
    modifies key
    ensures length == |Encoded(clock)|
    ensures key[..] == Encoded(clock) + old(key[..])[length..]
  {
    if clock == 0 {
      key[0] := 0;
      assert key[..] == [0] + old(key[..])[1..];
      return 1;
    }
    var sets: seq<int> := [];
    var rest: int := clock;
    while rest > 0
      invariant Septets(clock) == sets + Septets(rest)
      decreases rest
    {
      sets := sets + [rest % 128];
      rest := Shift7(rest);
    }
    EncodedSeptets(clock);
    WriteSets(key, sets, Encoded(clock));
    length := |sets|;
  }

  /** The writing loop: sets go in from the last byte back, all but the first to be
      written with a continuation bit. */
  method WriteSets(key: array<byte>, sets: seq<int>, ghost code: seq<byte>)
    requires |sets| == |code| <= key.Length
    requires forall j :: 0 <= j < |sets| ==>
               code[j] == sets[|sets| - 1 - j] + if j < |sets| - 1 then 128 else 0
    modifies key
    ensures key[..] == code + old(key[..])[|sets|..]
  {
    var n := |sets|;
    for i := 0 to n
      invariant forall j :: 0 <= j < key.Length ==>
                  key[j] == if n - i <= j < n then code[j] else old(key[..])[j]
    {
      var b := sets[i];
      if i > 0 {
        b := b + 128;
      }
      ghost var j := n - 1 - i;
      assert sets[n - 1 - j] == sets[i];
      assert b == code[j];
      key[n - 1 - i] := b;
    }
  }

  /** The 7-bit sets up to and including the first byte without a continuation bit. */
  function Sets(key: seq<byte>): (s: seq<int>)
    ensures |s| <= |key|
  {
    if key == [] then []
    else if key[0] >= 128 then [key[0] - 128] + Sets(key[1..])
    else [key[0]]
  }

  /** The sum the decoder's reduce computes over the sets. */
  function Sum(sets: seq<int>): int {
    if sets == [] then 0 else Shl32(sets[0], 7 * (|sets| - 1)) + Sum(sets[1..])
  }

  /** The clock a key starts with, and the number of bytes it occupies. */
  function Decoded(key: seq<byte>): (int, nat) {
    (Sum(Sets(key)), |Sets(key)|)
  }

  method DecodeClock(key: seq<byte>) returns (clock: int, length: nat)
    ensures (clock, length) == Decoded(key)
  {
    var sets := ReadSets(key);
    clock := 0;
    for i := 0 to |sets|
      invariant clock + Sum(sets[i..]) == Sum(sets)
    {
      var tail := sets[i..];
      assert tail[1..] == sets[i + 1..] && |tail| - 1 == |sets| - 1 - i;
      clock := clock + Shl32(sets[i], 7 * (|sets| - 1 - i));
    }
    length := |sets|;
  }

  lemma NextSet(key: seq<byte>, k: nat, sets: seq<int>)
    requires k < |key|
    ensures sets + Sets(key[k..]) == sets + [key[k] % 128] + if key[k] < 128 then [] else Sets(key[k + 1..])
  {
    assert key[k..][0] == key[k] && key[k..][1..] == key[k + 1..];
  }

  /** The decoder's reading loop. */
  method ReadSets(key: seq<byte>) returns (sets: seq<int>)
    ensures sets == Sets(key)
  {
    sets := [];
    var k := 0;
    while k < |key|
      invariant 0 <= k <= |key|
      invariant Sets(key) == sets + Sets(key[k..])
    {
      var b := key[k];
      NextSet(key, k, sets);
      sets := sets + [b % 128];
      if b < 128 {
        break;
      }
      k := k + 1;
    }
  }

  /** The length the program's comparison chain reports; its bounds above 2^28 are
      themselves 32-bit shifts: 1 << 35 is 8, ..., 1 << 63 is negative. */
  function EncodingLength(clock: int): nat {
    if clock < Shl32(1, 7) then 1
    else if clock < Shl32(1, 14) then 2
    else if clock < Shl32(1, 21) then 3
    else if clock < Shl32(1, 28) then 4
    else if clock < Shl32(1, 35) then 5
    else if clock < Shl32(1, 42) then 6
    else if clock < Shl32(1, 49) then 7
    else if clock < Shl32(1, 56) then 8
    else if clock < Shl32(1, 63) then 9
    else 10
  }

  lemma {:induction false} PowerStep(base: nat, n: nat, k: nat)
    ensures Power(base, n + k) == Power(base, n) * Power(base, k)
  {
    if k > 0 {
      PowerStep(base, n, k - 1);
      assert Power(base, n) * (Power(base, k - 1) * base) == Power(base, n) * Power(base, k - 1) * base;
    }
  }

  lemma PowersOfTwo()
    ensures Power(2, 0) == 1 && Power(2, 3) == 8 && Power(2, 7) == 128
    ensures Power(2, 10) == 1024 && Power(2, 14) == 0x4000 && Power(2, 17) == 0x2_0000
    ensures Power(2, 21) == 0x20_0000 && Power(2, 24) == 0x100_0000
    ensures Power(2, 28) == 0x1000_0000 && Power(2, 31) == 0x8000_0000
  {
  }

  lemma Int32Identity(x: int)
    requires -0x8000_0000 <= x < 0x8000_0000
    ensures ToInt32(x) == x
  {
  }

  lemma Shift7Divides(clock: nat)
    requires clock < 0x8000_0000
    ensures Shift7(clock) == clock / 128
  {
  }

  lemma ShiftConstants()
    ensures Shl32(1, 7) == 128 && Shl32(1, 14) == 0x4000 && Shl32(1, 21) == 0x20_0000
    ensures Shl32(1, 28) == 0x1000_0000 && Shl32(1, 35) == 8 && Shl32(1, 42) == 1024
    ensures Shl32(1, 49) == 0x2_0000 && Shl32(1, 56) == 0x100_0000
    ensures Shl32(1, 63) == -0x8000_0000
  {
    PowersOfTwo();
    assert 35 % 32 == 3 && 42 % 32 == 10 && 49 % 32 == 17 && 56 % 32 == 24 && 63 % 32 == 31;
    assert ToInt32(0x8000_0000) == -0x8000_0000;
  }

  /** How many sets a clock has, by its size. */
  function EncodedLength(clock: nat): nat {
    if clock < 128 then 1 else if clock < 0x4000 then 2
    else if clock < 0x20_0000 then 3 else if clock < 0x1000_0000 then 4 else 5
  }

  lemma {:induction false} ContinuedLength(clock: nat)
    requires 0 < clock < 0x8000_0000
    ensures |Continued(clock)| == EncodedLength(clock)
    decreases clock
  {
    Shift7Divides(clock);
    if clock >= 128 {
      ContinuedLength(clock / 128);
    } else {
      assert Continued(0) == [];
    }
  }

  lemma EncodedLengths(clock: nat)
    requires clock < 0x8000_0000
    ensures |Encoded(clock)| == EncodedLength(clock)
  {
    if clock > 0 {
      ContinuedLength(clock);
    }
  }

  /** `encodingLength` reports the number of bytes `encodeClock` writes exactly for the
      clocks below 2^28; from there on it reports 10 and the encoder writes at most five. */
  lemma EncodingLengthExact(clock: nat)
    ensures EncodingLength(clock) == |Encoded(clock)| <==> clock < 0x1000_0000
    ensures clock >= 0x1000_0000 ==> EncodingLength(clock) == 10 && |Encoded(clock)| <= 5
  {
    ShiftConstants();
    if clock < 0x1000_0000 {
      EncodedLengths(clock);
    } else {
      var rest := Shift7(clock);
      assert rest < 0x100_0000;
      if rest > 0 {
        ContinuedLength(rest);
      }
    }
  }

  /** The digits of a clock in base 128, without leading zeros (none for 0). */
  function Plain(clock: nat): (s: seq<int>)
    ensures Digital(128, s) && Value(128, s) == clock
  {
    if clock == 0 then [] else
      var front, last := Plain(clock / 128), clock % 128;
      assert (front + [last])[..|front|] == front;
      front + [last]
  }

  lemma {:induction false} ContinuedIsPlain(clock: nat)
    requires clock < 0x8000_0000
    ensures |Continued(clock)| == |Plain(clock)|
    ensures forall j :: 0 <= j < |Plain(clock)| ==> Continued(clock)[j] == Plain(clock)[j] + 128
  {
    if clock > 0 {
      assert Shift7(clock) == clock / 128;
      ContinuedIsPlain(clock / 128);
    }
  }

  /** A leading zero set changes neither the decoder's sum nor the number denoted. */
  lemma LeadingZero(s: seq<int>)
    ensures Sum([0] + s) == Sum(s)
    ensures Value(128, [0] + s) == Value(128, s)
  {
    assert ([0] + s)[1..] == s;
    ZeroShifted(7 * |s|);
    LeadingZeroValue(s);
  }

  lemma ZeroShifted(n: nat)
    ensures Shl32(0, n) == 0
  {
    assert 0 * Power(2, n % 32) == 0;
  }

  lemma {:induction false} LeadingZeroValue(s: seq<int>)
    ensures Value(128, [0] + s) == Value(128, s)
  {
    if s == [] {
      ValueAppend(128, [], 0);
      assert [0] + s == [] + [0];
    } else {
      var front, last := s[..|s| - 1], s[|s| - 1];
      LeadingZeroValue(front);
      assert s == front + [last] && [0] + s == ([0] + front) + [last];
      ValueAppend(128, front, last);
      ValueAppend(128, [0] + front, last);
    }
  }

  /** A shift that stays in range multiplies. */
  lemma ShiftBy(x: int, n: nat, power: nat)
    requires n < 32 && Power(2, n) == power && 0 <= x * power < 0x8000_0000
    ensures Shl32(x, n) == x * power
  {
    Int32Identity(x * power);
  }

  lemma FiveSets(a: int, b: int, c: int, d: int, e: int)
    requires Digital(128, [a, b, c, d, e]) && a < 8
    ensures Sum([a, b, c, d, e]) == a * 0x1000_0000 + b * 0x20_0000 + c * 0x4000 + d * 128 + e
  {
    var s := [a, b, c, d, e];
    assert s[0] == a && s[1] == b && s[2] == c && s[3] == d && s[4] == e;
    PowersOfTwo();
    ShiftBy(a, 28, 0x1000_0000);
    ShiftBy(b, 21, 0x20_0000);
    ShiftBy(c, 14, 0x4000);
    ShiftBy(d, 7, 128);
    ShiftBy(e, 0, 1);
    assert Sum([e]) == Shl32(e, 0) + Sum([]);
    assert [d, e][1..] == [e] && [c, d, e][1..] == [d, e];
    assert [b, c, d, e][1..] == [c, d, e] && [a, b, c, d, e][1..] == [b, c, d, e];
    assert Sum([d, e]) == Shl32(d, 7) + Sum([e]);
    assert Sum([c, d, e]) == Shl32(c, 14) + Sum([d, e]);
    assert Sum([b, c, d, e]) == Shl32(b, 21) + Sum([c, d, e]);
    assert Sum([a, b, c, d, e]) == Shl32(a, 28) + Sum([b, c, d, e]);
  }

  lemma FiveDigits(a: int, b: int, c: int, d: int, e: int)
    ensures Value(128, [a, b, c, d, e]) == a * 0x1000_0000 + b * 0x20_0000 + c * 0x4000 + d * 128 + e
  {
    ValueAppend(128, [], a);
    assert [] + [a] == [a] && [a] + [b] == [a, b] && [a, b] + [c] == [a, b, c];
    assert [a, b, c] + [d] == [a, b, c, d] && [a, b, c, d] + [e] == [a, b, c, d, e];
    ValueAppend(128, [a], b);
    ValueAppend(128, [a, b], c);
    ValueAppend(128, [a, b, c], d);
    ValueAppend(128, [a, b, c, d], e);
  }

  /** Short set lists with a small sum do not overflow the decoder's shifts. */
  lemma {:induction false} SumIsValue(s: seq<int>)
    requires Digital(128, s) && |s| <= 5 && Value(128, s) < 0x8000_0000
    ensures Sum(s) == Value(128, s)
    decreases 5 - |s|
  {
    if |s| < 5 {
      LeadingZero(s);
      SumIsValue([0] + s);
    } else {
      assert s == [s[0], s[1], s[2], s[3], s[4]];
      FiveDigits(s[0], s[1], s[2], s[3], s[4]);
      FiveSets(s[0], s[1], s[2], s[3], s[4]);
    }
  }

  /** The sets read from the bytes of a clock with these leading sets and this last set. */
  lemma {:induction false} SetsOfTerminated(bytes: seq<byte>, sets: seq<int>, last: byte, rest: seq<byte>)
    requires HighBytesOf(bytes, sets) && Digital(128, sets) && last < 128
    ensures Sets(bytes + [last] + rest) == sets + [last]
  {
    var key := bytes + [last] + rest;
    if bytes == [] {
      assert key[0] == last;
    } else {
      assert key[0] == bytes[0] && key[1..] == bytes[1..] + [last] + rest;
      SetsOfTerminated(bytes[1..], sets[1..], last, rest);
    }
  }

  lemma PlainAppend(clock: nat)
    requires clock > 0
    ensures Plain(clock) == Plain(clock / 128) + [clock % 128]
  {
  }

  /** Reading an encoded clock back gives the clock and its length, whatever bytes follow. */
  lemma ClockRoundTrip(clock: nat, rest: seq<byte>)
    requires clock < 0x8000_0000
    ensures Decoded(Encoded(clock) + rest) == (clock, |Encoded(clock)|)
  {
    if clock == 0 {
      assert Sets([0] + rest) == [0];
      SumIsValue([0]);
      ValueAppend(128, [], 0);
    } else {
      EncodedPlain(clock);
      PlainAppend(clock);
      var d, t := clock / 128, clock % 128;
      SetsOfTerminated(Continued(d), Plain(d), t, rest);
      PlainLength(clock);
      SumIsValue(Plain(clock));
    }
  }

  lemma PlainLength(clock: nat)
    requires 0 < clock < 0x8000_0000
    ensures |Plain(clock)| == |Encoded(clock)| <= 5
  {
    EncodedPlain(clock);
    EncodedLengths(clock);
    PlainAppend(clock);
  }

  /** A pair of neighbouring clocks whose encodings sort the wrong way round; 16384 is the
      smallest clock that sorts before a smaller one. */
  lemma OrderBreaksAt16384()
    ensures Encoded(16383) == [0xff, 0x7f] && Encoded(16384) == [0x81, 0x80, 0x00]
    ensures LexLess(Encoded(16384), Encoded(16383))
  {
  }

  /** A first part that is not larger, and a terminating set against a larger byte. */
  lemma CompareParts(p: seq<byte>, q: seq<byte>, s1: seq<byte>, s2: seq<byte>)
    requires |p| == |q| && s1 != []
    requires p == q ==> s2 != [] && s1[0] < s2[0]
    ensures LexLess(p + s1, q + s2) <==> p == q || LexLess(p, q)
  {
    if p == q {
      LexLessPrefix(p, s1, s2);
    } else {
      LexLessDecided(p, q, s1, s2);
    }
  }

  lemma CompareTerminated(
    p: seq<byte>, q: seq<byte>, a: seq<int>, b: seq<int>, t1: byte, t2: byte, r1: seq<byte>, r2: seq<byte>)
    requires HighBytesOf(p, a) && HighBytesOf(q, b) && Digital(128, a) && Digital(128, b)
    requires |a| <= |b| && t1 < 128 && t2 < 128 && (a == b ==> t1 < t2)
    ensures LexLess(p + [t1] + r1, q + [t2] + r2) <==> Value(128, a) <= Value(128, b[..|a|])
  {
    var n := |a|;
    var s1, s2 := [t1] + r1, q[n..] + [t2] + r2;
    assert p + [t1] + r1 == p + s1;
    assert q + [t2] + r2 == q[..n] + s2;
    HighBytesInjective(a, b[..n], p, q[..n]);
    if p == q[..n] {
      assert |b| == n ==> b == b[..n];
      assert s1[0] == t1 && s2[0] == if |b| == n then t2 else q[n];
    }
    CompareParts(p, q[..n], s1, s2);
    LexShift(a, b[..n], p, q[..n]);
    LexIsNumeric(128, a, b[..n]);
  }

  /** Exactly when byte order follows clock order.  For clocks c1 < c2 below 2^31, the
      encodings sort like the clocks, whatever hash bytes follow, if and only if c1 without
      its last set is at most the number made of equally many leading sets of c2. */
  lemma ByteOrderFollowsClock(c1: nat, c2: nat, r1: seq<byte>, r2: seq<byte>)
    requires 0 < c1 < c2 < 0x8000_0000
    ensures |Plain(c1 / 128)| <= |Plain(c2 / 128)|
    ensures LexLess(Encoded(c1) + r1, Encoded(c2) + r2)
            <==> c1 / 128 <= Value(128, Plain(c2 / 128)[..|Plain(c1 / 128)|])
  {
    var d1, d2, t1, t2 := c1 / 128, c2 / 128, c1 % 128, c2 % 128;
    EncodedPlain(c1);
    EncodedPlain(c2);
    assert |Plain(d1)| <= |Plain(d2)| by {
      EncodedLengths(c1);
      EncodedLengths(c2);
    }
    assert Plain(d1) == Plain(d2) ==> d1 == d2;
    CompareTerminated(Continued(d1), Continued(d2), Plain(d1), Plain(d2), t1, t2, r1, r2);
  }

  lemma EncodedPlain(clock: nat)
    requires 0 < clock < 0x8000_0000
    ensures Encoded(clock) == Continued(clock / 128) + [clock % 128]
    ensures HighBytesOf(Continued(clock / 128), Plain(clock / 128))
  {
  }

  ghost predicate HighBytesOf(bytes: seq<byte>, sets: seq<int>) {
    |bytes| == |sets| && forall j :: 0 <= j < |sets| ==> bytes[j] == sets[j] + 128
  }

  lemma {:induction false} HighBytesInjective(a: seq<int>, b: seq<int>, x: seq<byte>, y: seq<byte>)
    requires HighBytesOf(x, a) && HighBytesOf(y, b)
    ensures x == y <==> a == b
  {
  }

  /** Adding the continuation bit to every set keeps the order. */
  lemma {:induction false} LexShift(a: seq<int>, b: seq<int>, x: seq<byte>, y: seq<byte>)
    requires HighBytesOf(x, a) && HighBytesOf(y, b) && |a| == |b|
    ensures LexLess(x, y) == LexLess(a, b)
  {
    if a != [] && a[0] == b[0] {
      LexShift(a[1..], b[1..], x[1..], y[1..]);
    }
  }

  /** Below 2^14 byte order always follows clock order. */
  lemma SmallClocksSort(c1: nat, c2: nat, r1: seq<byte>, r2: seq<byte>)
    requires 0 < c1 < c2 < 0x4000
    ensures LexLess(Encoded(c1) + r1, Encoded(c2) + r2)
  {
    ByteOrderFollowsClock(c1, c2, r1, r2);
    LeadingOfSmall(c1 / 128, c2 / 128);
  }

  lemma LeadingOfSmall(d1: nat, d2: nat)
    requires d1 <= d2 < 128
    ensures |Plain(d1)| <= |Plain(d2)|
    ensures d1 <= Value(128, Plain(d2)[..|Plain(d1)|])
  {
    SmallPlain(d1);
    SmallPlain(d2);
    if d1 > 0 {
      assert Plain(d2)[..|Plain(d1)|] == Plain(d2);
    } else {
      assert Plain(d2)[..0] == [];
    }
  }

  lemma SmallPlain(d: nat)
    requires d < 128
    ensures |Plain(d)| == if d == 0 then 0 else 1
  {
    if d > 0 {
      PlainAppend(d);
      assert Plain(0) == [];
    }
  }
}
