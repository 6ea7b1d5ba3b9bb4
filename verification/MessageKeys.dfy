/** Message keys and identifiers (schema.ts): 20 bytes that start with the message's
    clock and continue with its hash, printed in the base32hex alphabet. */
module MessageKeys {
  import opened Positional
  import opened Clock

  const KEY_LENGTH := 20

  type Key = k: seq<byte> | |k| == KEY_LENGTH witness seq(KEY_LENGTH, i => 0)

  /** The key of a message with this clock and this sha256 digest. */
  function KeyOf(clock: nat, digest: seq<byte>): (k: Key)
    requires clock < 0x8000_0000 && |digest| == 32
  {
    EncodedLengths(clock);
    Encoded(clock) + digest[..KEY_LENGTH - |Encoded(clock)|]
  }

  method GetKey(clock: nat, digest: seq<byte>) returns (key: Key)
    requires clock < 0x8000_0000 && |digest| == 32
    ensures key == KeyOf(clock, digest)
    ensures var n := |Encoded(clock)|;
            n <= 5 && key[..n] == Encoded(clock) && key[n..] == digest[..KEY_LENGTH - n]
    ensures Decoded(key).0 == clock
  {
    EncodedLengths(clock);
    var buffer := new byte[KEY_LENGTH];
    var length := EncodeClock(buffer, clock);
    forall i | length <= i < KEY_LENGTH {
      buffer[i] := digest[i - length];
    }
    key := buffer[..];
    assert key == KeyOf(clock, digest);
    ClockRoundTrip(clock, digest[..KEY_LENGTH - length]);
  }

  /** Two messages have the same key exactly if they have the same clock and their digests
      agree on the bytes that fit behind it. */
  lemma SameKeyIff(clock1: nat, digest1: seq<byte>, clock2: nat, digest2: seq<byte>)
    requires clock1 < 0x8000_0000 && |digest1| == 32 && clock2 < 0x8000_0000 && |digest2| == 32
    ensures |Encoded(clock1)| <= 5
    ensures KeyOf(clock1, digest1) == KeyOf(clock2, digest2)
            <==> clock1 == clock2
                 && forall i :: 0 <= i < KEY_LENGTH - |Encoded(clock1)| ==> digest1[i] == digest2[i]
  {
    EncodedLengths(clock1);
    EncodedLengths(clock2);
    var n1, n2 := |Encoded(clock1)|, |Encoded(clock2)|;
    ClockRoundTrip(clock1, digest1[..KEY_LENGTH - n1]);
    ClockRoundTrip(clock2, digest2[..KEY_LENGTH - n2]);
    if KeyOf(clock1, digest1) == KeyOf(clock2, digest2) {
      forall i | 0 <= i < KEY_LENGTH - n1 ensures digest1[i] == digest2[i] {
        assert KeyOf(clock1, digest1)[n1 + i] == digest1[i] && KeyOf(clock2, digest2)[n1 + i] == digest2[i];
      }
    }
  }

  /** A message identifier: the clock a key starts with and the number its remaining
      bytes denote.  The log passes keys and their printed form around interchangeably;
      both carry exactly this pair (IdOfKey, KeyOfId and IdRoundTrip). */
  datatype Id = Id(clock: nat, hash: nat)

  /** The identifiers of keys that `GetKey` can produce. */
  predicate ValidId(id: Id) {
    id.clock < 0x8000_0000 && |Encoded(id.clock)| <= KEY_LENGTH
    && id.hash < Power(256, KEY_LENGTH - |Encoded(id.clock)|)
  }

  function KeyOfId(id: Id): (key: Key)
    requires ValidId(id)
  {
    Encoded(id.clock) + Digits(256, KEY_LENGTH - |Encoded(id.clock)|, id.hash)
  }

  /** Every key with a clock is the key of exactly one identifier. */
  lemma IdOfKey(clock: nat, digest: seq<byte>) returns (id: Id)
    requires clock < 0x8000_0000 && |digest| == 32
    ensures ValidId(id) && id.clock == clock && KeyOfId(id) == KeyOf(clock, digest)
    ensures id.hash == Value(256, digest[..KEY_LENGTH - |Encoded(clock)|])
  {
    EncodedLengths(clock);
    var rest := digest[..KEY_LENGTH - |Encoded(clock)|];
    ValueBounds(256, rest);
    WriteBack(256, rest);
    id := Id(clock, Value(256, rest));
  }

  /** The identifier a key stands for; the inverse of KeyOfId (IdOfKeyOfId). */
  function IdOf(key: Key): (int, int) {
    var (clock, length) := Decoded(key);
    (clock, Value(256, if length <= |key| then key[length..] else []))
  }

  lemma IdOfKeyOfId(id: Id)
    requires ValidId(id)
    ensures IdOf(KeyOfId(id)) == (id.clock, id.hash)
  {
    var n := KEY_LENGTH - |Encoded(id.clock)|;
    var x := Digits(256, n, id.hash);
    ClockRoundTrip(id.clock, x);
    ReadBack(256, n, id.hash);
    assert KeyOfId(id)[|Encoded(id.clock)|..] == x;
  }

  lemma KeyOfIdInjective(a: Id, b: Id)
    requires ValidId(a) && ValidId(b) && KeyOfId(a) == KeyOfId(b)
    ensures a == b
  {
    IdOfKeyOfId(a);
    IdOfKeyOfId(b);
  }

  /** The order of keys in the message store. */
  ghost predicate IdLess(a: Id, b: Id) {
    ValidId(a) && ValidId(b) && LexLess(KeyOfId(a), KeyOfId(b))
  }

  lemma IdOrderTotal(a: Id, b: Id)
    requires ValidId(a) && ValidId(b)
    ensures !(IdLess(a, b) && IdLess(b, a)) && !IdLess(a, a)
    ensures IdLess(a, b) || IdLess(b, a) || a == b
  {
    LexTotal(KeyOfId(a), KeyOfId(b));
    LexTotal(KeyOfId(a), KeyOfId(a));
    if KeyOfId(a) == KeyOfId(b) {
      KeyOfIdInjective(a, b);
    }
  }

  lemma IdOrderTransitive(a: Id, b: Id, c: Id)
    requires IdLess(a, b) && IdLess(b, c)
    ensures IdLess(a, c)
  {
    LexTransitive(KeyOfId(a), KeyOfId(b), KeyOfId(c));
  }

  /** Below clock 2^14, identifiers sort by clock first. */
  lemma IdOrderFollowsClock(a: Id, b: Id)
    requires ValidId(a) && ValidId(b) && 0 < a.clock < b.clock < 0x4000
    ensures IdLess(a, b)
  {
    var x := Digits(256, KEY_LENGTH - |Encoded(a.clock)|, a.hash);
    var y := Digits(256, KEY_LENGTH - |Encoded(b.clock)|, b.hash);
    SmallClocksSort(a.clock, b.clock, x, y);
  }

  /** Exactly when the identifier with the earlier clock sorts first. */
  lemma IdOrderExact(a: Id, b: Id)
    requires ValidId(a) && ValidId(b) && 0 < a.clock < b.clock
    ensures |Plain(a.clock / 128)| <= |Plain(b.clock / 128)|
    ensures IdLess(a, b) <==> a.clock / 128 <= Value(128, Plain(b.clock / 128)[..|Plain(a.clock / 128)|])
  {
    var x := Digits(256, KEY_LENGTH - |Encoded(a.clock)|, a.hash);
    var y := Digits(256, KEY_LENGTH - |Encoded(b.clock)|, b.hash);
    ByteOrderFollowsClock(a.clock, b.clock, x, y);
  }

  /** At 2^14 the order turns round: every message with clock 16384 sorts before every
      message with clock 16383, its possible parent. */
  lemma IdOrderBreaksAt16384(parent: Id, child: Id)
    requires ValidId(parent) && ValidId(child) && parent.clock == 16383 && child.clock == 16384
    ensures IdLess(child, parent)
  {
  }

  /** One more than the largest of the clocks, ignoring those that are not positive. */
  function NextClock(clocks: seq<int>): (c: int)
    ensures c >= 1
    ensures forall k :: k in clocks ==> k < c
    ensures c == 1 || c - 1 in clocks
  {
    if clocks == [] then 1 else
      var rest, last := NextClock(clocks[..|clocks| - 1]), clocks[|clocks| - 1];
      assert clocks == clocks[..|clocks| - 1] + [last];
      if last >= rest then last + 1 else rest
  }

  /** The clocks a list of keys starts with. */
  function ClocksOfKeys(keys: seq<Key>): (r: seq<int>)
    ensures |r| == |keys|
  {
    seq(|keys|, i requires 0 <= i < |keys| => Decoded(keys[i]).0)
  }

  method GetNextClock(heads: seq<Key>) returns (clock: int)
    ensures clock == NextClock(ClocksOfKeys(heads))
  {
    var max := 0;
    ghost var clocks := ClocksOfKeys(heads);
    for i := 0 to |heads|
      invariant max + 1 == NextClock(clocks[..i])
    {
      var c, _ := DecodeClock(heads[i]);
      assert clocks[..i + 1][..i] == clocks[..i] && c == clocks[i];
      if c > max {
        max := c;
      }
    }
    assert clocks[..|heads|] == clocks;
    clock := max + 1;
  }

  // ----- base32hex -----

  const ALPHABET := "0123456789abcdefghijklmnopqrstuv"

  /** Position in the alphabet. */
  function DigitOf(c: char): int {
    if '0' <= c <= '9' then c as int - '0' as int
    else if 'a' <= c <= 'v' then c as int - 'a' as int + 10
    else 0
  }

  /** Comparison of strings, character code by character code. */
  predicate StringLess(s: string, t: string) {
    LexLess(Codes(s), Codes(t))
  }

  function Codes(s: string): (r: seq<int>)
    ensures |r| == |s|
  {
    seq(|s|, i requires 0 <= i < |s| => s[i] as int)
  }

  predicate MessageIdPattern(s: string) {
    |s| == 32 && forall i :: 0 <= i < 32 ==> '0' <= s[i] <= '9' || 'a' <= s[i] <= 'v'
  }

  function CharOf(d: int): (c: char)
    requires 0 <= d < 32
    ensures '0' <= c <= '9' || 'a' <= c <= 'v'
    ensures DigitOf(c) == d && (c as int) == if d < 10 then d + 48 else d + 87
  {
    assert ALPHABET[d] == if d < 10 then (d + 48) as char else (d + 87) as char;
    ALPHABET[d]
  }

  /** Writes a digit string in another base, with a given number of digits. */
  function Rebase(base: nat, other: nat, count: nat, s: seq<int>): (d: seq<int>)
    requires base > 0 && other > 1 && Digital(base, s)
    ensures |d| == count && Digital(other, d)
  {
    ValueBounds(base, s);
    Digits(other, count, Value(base, s))
  }

  function CharsOf(d: seq<int>): (s: string)
    requires Digital(32, d)
    ensures |s| == |d|
    ensures forall i :: 0 <= i < |s| ==> '0' <= s[i] <= '9' || 'a' <= s[i] <= 'v'
  {
    seq(|d|, i requires 0 <= i < |d| => CharOf(d[i]))
  }

  /** The printed form of a key: its bits in groups of five. */
  function DecodeId(key: Key): (s: string)
    ensures MessageIdPattern(s)
  {
    CharsOf(Rebase(256, 32, |key| * 8 / 5, key))
  }

  function DigitsOf(s: string): (d: seq<int>)
    requires MessageIdPattern(s)
    ensures |d| == |s| && Digital(32, d)
  {
    seq(|s|, i requires 0 <= i < |s| => DigitOf(s[i]))
  }

  /** The key a printed identifier stands for. */
  function EncodeId(s: string): (key: Key)
    requires MessageIdPattern(s)
  {
    Rebase(32, 256, |s| * 5 / 8, DigitsOf(s))
  }

  /** Going to another base and back, when both write the same range of numbers. */
  lemma RebaseBack(base: nat, other: nat, s: seq<int>, count: nat)
    requires base > 1 && other > 1 && Digital(base, s)
    requires Power(base, |s|) == Power(other, count)
    ensures Rebase(other, base, |s|, Rebase(base, other, count, s)) == s
  {
    ValueBounds(base, s);
    ReadBack(other, count, Value(base, s));
    WriteBack(base, s);
  }

  lemma RebaseOrder(base: nat, other: nat, s: seq<int>, t: seq<int>, count: nat)
    requires base > 1 && other > 1 && Digital(base, s) && Digital(base, t) && |s| == |t|
    requires Power(base, |s|) == Power(other, count)
    ensures LexLess(Rebase(base, other, count, s), Rebase(base, other, count, t)) <==> LexLess(s, t)
    ensures Rebase(base, other, count, s) == Rebase(base, other, count, t) <==> s == t
  {
    ValueBounds(base, s);
    ValueBounds(base, t);
    ReadBack(other, count, Value(base, s));
    ReadBack(other, count, Value(base, t));
    LexIsNumeric(base, s, t);
    LexIsNumeric(other, Rebase(base, other, count, s), Rebase(base, other, count, t));
  }

  lemma {:induction false} PowerOfPower(base: nat, k: nat, n: nat)
    ensures Power(Power(base, k), n) == Power(base, k * n)
  {
    if n > 0 {
      PowerOfPower(base, k, n - 1);
      PowerStep(base, k * (n - 1), k);
      assert k * (n - 1) + k == k * n;
    }
  }

  /** n bytes and m groups of five bits hold the same numbers when 8n = 5m. */
  lemma SameBits(n: nat, m: nat)
    requires 8 * n == 5 * m
    ensures Power(256, n) == Power(32, m)
  {
    assert Power(2, 8) == 256 by { PowerStep(2, 4, 4); assert Power(2, 4) == 16; }
    assert Power(2, 5) == 32;
    PowerOfPower(2, 8, n);
    PowerOfPower(2, 5, m);
  }

  lemma CharsAndDigits(d: seq<int>, s: string)
    requires Digital(32, d) && MessageIdPattern(s)
    ensures CharsOf(DigitsOf(s)) == s
    ensures |d| == 32 ==> DigitsOf(CharsOf(d)) == d
  {
  }

  /** Printing and parsing identifiers are inverse to each other. */
  lemma IdRoundTrip(key: Key, s: string)
    requires MessageIdPattern(s)
    ensures EncodeId(DecodeId(key)) == key
    ensures DecodeId(EncodeId(s)) == s
  {
    PrintThenParse(key);
    ParseThenPrint(s);
  }

  lemma PrintThenParse(key: Key)
    ensures EncodeId(DecodeId(key)) == key
  {
    var count := |key| * 8 / 5;
    var groups := Rebase(256, 32, count, key);
    SameBits(|key|, count);
    CharsAndDigits(groups, CharsOf(groups));
    RebaseBack(256, 32, key, count);
  }

  lemma ParseThenPrint(s: string)
    requires MessageIdPattern(s)
    ensures DecodeId(EncodeId(s)) == s
  {
    var count := |s| * 5 / 8;
    var groups := DigitsOf(s);
    SameBits(count, |s|);
    CharsAndDigits(groups, s);
    RebaseBack(32, 256, groups, count);
  }

  /** base32hex keeps byte order: printed identifiers sort exactly like keys. */
  lemma IdOrderIsStringOrder(a: Key, b: Key)
    ensures StringLess(DecodeId(a), DecodeId(b)) <==> LexLess(a, b)
    ensures DecodeId(a) == DecodeId(b) <==> a == b
  {
    var count := |a| * 8 / 5;
    SameBits(|a|, count);
    var x, y := Rebase(256, 32, count, a), Rebase(256, 32, count, b);
    RebaseOrder(256, 32, a, b, count);
    AlphabetAscends(x, y, Codes(CharsOf(x)), Codes(CharsOf(y)));
    CharsAndDigits(x, CharsOf(x));
    CharsAndDigits(y, CharsOf(y));
  }

  function CodeOf(d: int): int {
    if d < 10 then d + 48 else d + 87
  }

  lemma {:induction false} AlphabetAscends(x: seq<int>, y: seq<int>, s: seq<int>, t: seq<int>)
    requires |x| == |y| == |s| == |t|
    requires forall i :: 0 <= i < |x| ==> s[i] == CodeOf(x[i]) && t[i] == CodeOf(y[i])
    ensures LexLess(s, t) <==> LexLess(x, y)
  {
    if x != [] && x[0] == y[0] {
      AlphabetAscends(x[1..], y[1..], s[1..], t[1..]);
    }
  }
}

/** The exponentially spaced clocks of the ancestor index (utils.ts). */
module AncestorClocks {
  import opened Positional
  import opened Clock

  /** floor(log2 n). */
  function FloorLog2(n: nat): (k: nat)
    requires n > 0
    ensures Power(2, k) <= n < Power(2, k + 1)
  {
    if n == 1 then 0 else FloorLog2(n / 2) + 1
  }

  /** The number of rows of a message's index entry, the least k with clock <= 2^k. */
  function RowCount(clock: int): (k: nat)
    ensures clock >= 1 ==> clock <= Power(2, k)
    ensures clock > 1 ==> Power(2, k - 1) < clock
    ensures clock <= 1 ==> k == 0
  {
    if clock <= 1 then 0 else FloorLog2(clock - 1) + 1
  }

  lemma {:induction false} PowerMonotone(i: nat, j: nat)
    requires i <= j
    ensures Power(2, i) <= Power(2, j)
    ensures i < j ==> Power(2, i) < Power(2, j)
    decreases j - i
  {
    if i < j {
      PowerMonotone(i, j - 1);
    }
  }

  /** A lookup of row floor(log2(clock - bound)) is in range, and the row's target clock
      is not below the bound. */
  lemma LookupInRange(clock: int, bound: int)
    requires 1 <= bound < clock
    ensures FloorLog2(clock - bound) < RowCount(clock)
    ensures bound <= clock - Power(2, FloorLog2(clock - bound)) < clock
  {
    var k := FloorLog2(clock - bound);
    if k >= RowCount(clock) {
      PowerMonotone(RowCount(clock), k);
    }
  }

  /** Row i is used exactly while 2^i is below the clock. */
  lemma RowInUse(clock: int, i: nat)
    requires clock >= 1
    ensures i < RowCount(clock) <==> clock - Power(2, i) > 0
  {
    if i < RowCount(clock) {
      PowerMonotone(i, RowCount(clock) - 1);
    } else {
      PowerMonotone(RowCount(clock), i);
    }
  }

  lemma TwoTo30()
    ensures Power(2, 30) == 0x4000_0000
  {
    PowersOfTwo();
    PowerStep(2, 28, 2);
    assert Power(2, 2) == 4;
  }

  lemma ShiftOne(i: nat)
    ensures Shl32(1, i) == if i % 32 == 31 then -0x8000_0000 else Power(2, i % 32)
    ensures Shl32(1, i) <= 0x4000_0000
  {
    PowersOfTwo();
    TwoTo30();
    var k := i % 32;
    if k < 31 {
      PowerMonotone(k, 30);
      Int32Identity(Power(2, k));
    }
  }

  lemma RowCountBound(clock: int)
    requires clock <= 0x4000_0000
    ensures RowCount(clock) <= 30
  {
    TwoTo30();
    if clock >= 1 {
      RowInUse(clock, 30);
    }
  }

  /** The loop that lists the ancestor clocks ends exactly for clocks up to 2^30: above,
      1 << 31 turns negative and no step ever reaches zero. */
  lemma ListingEnds(clock: int)
    ensures (exists i: nat :: clock - Shl32(1, i) <= 0) <==> clock <= 0x4000_0000
  {
    if clock <= 0x4000_0000 {
      ShiftOne(30);
      TwoTo30();
      assert clock - Shl32(1, 30) <= 0;
    } else {
      forall i: nat ensures clock - Shl32(1, i) > 0 {
        ShiftOne(i);
      }
    }
  }

  /** Step i of the listing, while rows are in use and once after. */
  lemma ListingStep(clock: int, i: nat)
    requires 1 <= clock <= 0x4000_0000 && i <= RowCount(clock)
    ensures clock - Shl32(1, i) == clock - Power(2, i)
    ensures clock - Shl32(1, i) > 0 <==> i < RowCount(clock)
  {
    RowCountBound(clock);
    assert i % 32 == i;
    ShiftOne(i);
    RowInUse(clock, i);
  }

  method GetAncestorClocks(clock: int) returns (clocks: seq<int>)
    requires 1 <= clock <= 0x4000_0000
    ensures |clocks| == RowCount(clock)
    ensures forall i :: 0 <= i < |clocks| ==> clocks[i] == clock - Power(2, i)
  {
    clocks := [];
    var i := 0;
    while true
      invariant 0 <= i == |clocks| <= RowCount(clock)
      invariant clocks == seq(i, j requires 0 <= j => clock - Power(2, j))
      decreases RowCount(clock) - i
    {
      ListingStep(clock, i);
      var ancestor := clock - Shl32(1, i);
      if ancestor <= 0 {
        break;
      }
      clocks := clocks + [ancestor];
      i := i + 1;
    }
  }
}
