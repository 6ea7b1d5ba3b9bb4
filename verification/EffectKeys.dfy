/** The keys of the `$effects` table: `model/keyHash/messageId`.  The runtime finds effects
    by scanning ranges of these strings; the lemmas here show what such a scan returns. */
module EffectKeys {
  import opened Positional
  import opened Clock
  import opened MessageKeys
  import opened Strings

  const MIN_MESSAGE_ID := "00000000000000000000000000000000"
  const MAX_MESSAGE_ID := "vvvvvvvvvvvvvvvvvvvvvvvvvvvvvvvv"

  datatype RecordName = RecordName(model: string, keyHash: string)

  /** Model names match namePattern, and hashes print as 32 hexadecimal digits. */
  predicate ValidRecord(k: RecordName) {
    '/' !in k.model && |k.keyHash| == 32 && '/' !in k.keyHash
  }

  /** A record of a model.  Records are identified by the hash of their primary key. */
  type RecordKey = k: RecordName | ValidRecord(k) witness RecordName("", MIN_MESSAGE_ID)

  // ----- printed identifiers -----

  function PrintId(id: Id): (s: string)
    requires ValidId(id)
    ensures MessageIdPattern(s)
  {
    DecodeId(KeyOfId(id))
  }

  function ParseId(s: string): Id
    requires MessageIdPattern(s)
  {
    var (clock, hash) := IdOf(EncodeId(s));
    if clock >= 0 && hash >= 0 then Id(clock, hash) else Id(0, 0)
  }

  lemma ParsePrinted(id: Id)
    requires ValidId(id)
    ensures ParseId(PrintId(id)) == id
  {
    PrintThenParse(KeyOfId(id));
    IdOfKeyOfId(id);
  }

  /** Identifiers print in the order of their keys. */
  lemma PrintedOrder(a: Id, b: Id)
    requires ValidId(a) && ValidId(b)
    ensures StringLess(PrintId(a), PrintId(b)) <==> IdLess(a, b)
  {
    IdOrderIsStringOrder(KeyOfId(a), KeyOfId(b));
  }

  function Repeat(c: int, n: nat): (r: seq<int>)
    ensures |r| == n && forall i :: 0 <= i < n ==> r[i] == c
  {
    seq(n, _ => c)
  }

  /** No string over an alphabet sorts before a string of its first letters, or after a
      string of its last letters. */
  lemma {:induction false} NoneOutside(s: seq<int>, low: int, high: int)
    requires forall i :: 0 <= i < |s| ==> low <= s[i] <= high
    ensures !LexLess(s, Repeat(low, |s|)) && !LexLess(Repeat(high, |s|), s)
  {
    if s != [] {
      NoneOutside(s[1..], low, high);
      assert Repeat(low, |s|)[1..] == Repeat(low, |s| - 1);
      assert Repeat(high, |s|)[1..] == Repeat(high, |s| - 1);
    }
  }

  lemma Ends()
    ensures Codes(MIN_MESSAGE_ID) == Repeat('0' as int, 32) && Codes(MAX_MESSAGE_ID) == Repeat('v' as int, 32)
  {
  }

  /** The last byte of an encoded clock has no continuation bit. */
  lemma EncodingEnds(clock: nat)
    ensures Encoded(clock) != [] && Encoded(clock)[|Encoded(clock)| - 1] < 128
  {
  }

  lemma KeyIsNotAllOnes(id: Id)
    requires ValidId(id)
    ensures KeyOfId(id) != Repeat(255, KEY_LENGTH)
  {
    EncodingEnds(id.clock);
    assert KeyOfId(id)[|Encoded(id.clock)| - 1] < 128;
  }

  lemma CodesInAlphabet(s: string)
    requires MessageIdPattern(s)
    ensures !StringLess(s, MIN_MESSAGE_ID) && !StringLess(MAX_MESSAGE_ID, s)
  {
    Ends();
    NoneOutside(Codes(s), '0' as int, 'v' as int);
  }

  lemma SameCodes(s: string, t: string)
    requires Codes(s) == Codes(t)
    ensures s == t
  {
    forall i | 0 <= i < |s| ensures s[i] == t[i] {
      assert Codes(s)[i] == Codes(t)[i];
    }
  }

  /** Only the key of all ones prints as the largest identifier. */
  lemma PrintsAsMax(key: Key, ones: Key)
    requires ones == Repeat(255, KEY_LENGTH) && DecodeId(key) == MAX_MESSAGE_ID
    ensures key == ones
  {
    NoneOutside(key, 0, 255);
    LexTotal(key, ones);
    IdOrderIsStringOrder(key, ones);
    CodesInAlphabet(DecodeId(ones));
  }

  /** Every printed identifier lies in the range a scan covers. */
  lemma PrintedInRange(id: Id)
    requires ValidId(id)
    ensures !StringLess(PrintId(id), MIN_MESSAGE_ID) && StringLess(PrintId(id), MAX_MESSAGE_ID)
  {
    CodesInAlphabet(PrintId(id));
    if PrintId(id) == MAX_MESSAGE_ID {
      PrintsAsMax(KeyOfId(id), Repeat(255, KEY_LENGTH));
      KeyIsNotAllOnes(id);
    }
    LexTotal(Codes(PrintId(id)), Codes(MAX_MESSAGE_ID));
    if Codes(PrintId(id)) == Codes(MAX_MESSAGE_ID) {
      SameCodes(PrintId(id), MAX_MESSAGE_ID);
    }
  }

  // ----- effect keys -----

  function PrefixOf(k: RecordKey): string {
    k.model + "/" + k.keyHash + "/"
  }

  /** The key of an effect: PrefixOf(k) followed by the identifier. */
  function Rendered(k: RecordKey, id: Id): string
    requires ValidId(id)
  {
    PrefixOf(k) + PrintId(id)
  }

  /** Splitting an effect key at the slashes recovers the identifier. */
  lemma SplitRendered(k: RecordKey, id: Id)
    requires ValidId(id)
    ensures Split(Rendered(k, id), '/') == [k.model, k.keyHash, PrintId(id)]
  {
    var tail := k.keyHash + "/" + PrintId(id);
    assert Rendered(k, id) == k.model + "/" + tail;
    SplitPart(k.model, '/', tail);
    SplitPart(k.keyHash, '/', PrintId(id));
    SplitNone(PrintId(id), '/');
  }

  /** Different keys for different effects. */
  lemma RenderedInjective(k: RecordKey, id: Id, l: RecordKey, jd: Id)
    requires ValidId(id) && ValidId(jd)
    ensures Rendered(k, id) == Rendered(l, jd) <==> k == l && id == jd
  {
    SplitRendered(k, id);
    SplitRendered(l, jd);
    ParsePrinted(id);
    ParsePrinted(jd);
  }

  /** The prefixes of two records part before either of them ends. */
  lemma PrefixesPart(k: RecordKey, l: RecordKey)
    requires k != l
    ensures exists i :: 0 <= i < |PrefixOf(k)| && i < |PrefixOf(l)| && PrefixOf(k)[i] != PrefixOf(l)[i]
  {
    var p, q := PrefixOf(k), PrefixOf(l);
    var m, n := |k.model|, |l.model|;
    assert p[m] == '/' && q[n] == '/';
    assert p[..m] == k.model && q[..n] == l.model;
    if m < n {
      assert q[m] == l.model[m] != '/';
    } else if n < m {
      assert p[n] == k.model[n] != '/';
    } else if k.model != l.model {
      var i :| 0 <= i < m && k.model[i] != l.model[i];
      assert p[i] != q[i];
    } else {
      var i :| 0 <= i < 32 && k.keyHash[i] != l.keyHash[i];
      assert p[m + 1 + i] == k.keyHash[i] && q[m + 1 + i] == l.keyHash[i];
    }
  }

  /** Strings that part at a position compare alike whatever follows. */
  lemma ComparePrefixes(p: string, q: string, i: nat, x: string, a: string, b: string)
    requires i < |p| && i < |q| && p[i] != q[i]
    ensures StringLess(p + x, q + a) == StringLess(p + x, q + b)
    ensures StringLess(q + a, p + x) == StringLess(q + b, p + x)
    ensures StringLess(p + x, q + a) != StringLess(q + b, p + x)
  {
    ComparePrefix(p, q, i, x, a);
    ComparePrefix(p, q, i, x, b);
    ComparePrefix(q, p, i, a, x);
    ComparePrefix(q, p, i, b, x);
    assert Codes(p[..i + 1])[i] != Codes(q[..i + 1])[i];
    LexTotal(Codes(p[..i + 1]), Codes(q[..i + 1]));
  }

  lemma ComparePrefix(p: string, q: string, i: nat, x: string, a: string)
    requires i < |p| && i < |q| && p[i] != q[i]
    ensures StringLess(p + x, q + a) == LexLess(Codes(p[..i + 1]), Codes(q[..i + 1]))
  {
    SplitCodes(p, i + 1, x);
    SplitCodes(q, i + 1, a);
    assert Codes(p[..i + 1])[i] != Codes(q[..i + 1])[i];
    LexLessDecided(Codes(p[..i + 1]), Codes(q[..i + 1]), Codes(p[i + 1..] + x), Codes(q[i + 1..] + a));
  }

  lemma SplitCodes(p: string, i: nat, x: string)
    requires i <= |p|
    ensures Codes(p + x) == Codes(p[..i]) + Codes(p[i..] + x)
  {
  }

  lemma SamePrefix(p: string, x: string, y: string)
    ensures StringLess(p + x, p + y) == StringLess(x, y)
  {
    assert Codes(p + x) == Codes(p) + Codes(x) && Codes(p + y) == Codes(p) + Codes(y);
    LexLessPrefix(Codes(p), Codes(x), Codes(y));
  }

  /** lo <= s < hi, as the database compares strings. */
  predicate InRange(s: string, lo: string, hi: string) {
    !StringLess(s, lo) && StringLess(s, hi)
  }

  /** The scan from a record's lowest possible effect key up to a bound returns exactly
      that record's effects below the bound. */
  lemma ScanBelow(k: RecordKey, id: Id, l: RecordKey, bound: Id)
    requires ValidId(id) && ValidId(bound)
    ensures InRange(Rendered(k, id), PrefixOf(l) + MIN_MESSAGE_ID, Rendered(l, bound)) <==> k == l && IdLess(id, bound)
  {
    if k == l {
      SamePrefix(PrefixOf(k), PrintId(id), MIN_MESSAGE_ID);
      SamePrefix(PrefixOf(k), PrintId(id), PrintId(bound));
      PrintedInRange(id);
      PrintedOrder(id, bound);
    } else {
      OtherRecord(k, l, PrintId(id), MIN_MESSAGE_ID, PrintId(bound));
    }
  }

  /** The scan over all of a record's possible effect keys returns exactly its effects. */
  lemma ScanAll(k: RecordKey, id: Id, l: RecordKey)
    requires ValidId(id)
    ensures InRange(Rendered(k, id), PrefixOf(l) + MIN_MESSAGE_ID, PrefixOf(l) + MAX_MESSAGE_ID) <==> k == l
  {
    if k == l {
      SamePrefix(PrefixOf(k), PrintId(id), MIN_MESSAGE_ID);
      SamePrefix(PrefixOf(k), PrintId(id), MAX_MESSAGE_ID);
      PrintedInRange(id);
    } else {
      OtherRecord(k, l, PrintId(id), MIN_MESSAGE_ID, MAX_MESSAGE_ID);
    }
  }

  /** The scan above an effect key, up to the record's highest possible effect key, returns
      exactly that record's later effects. */
  lemma ScanAbove(k: RecordKey, id: Id, l: RecordKey, bound: Id)
    requires ValidId(id) && ValidId(bound)
    ensures StringLess(Rendered(l, bound), Rendered(k, id))
            && !StringLess(PrefixOf(l) + MAX_MESSAGE_ID, Rendered(k, id))
            <==> k == l && IdLess(bound, id)
  {
    if k == l {
      SamePrefix(PrefixOf(k), PrintId(bound), PrintId(id));
      SamePrefix(PrefixOf(k), MAX_MESSAGE_ID, PrintId(id));
      CodesInAlphabet(PrintId(id));
      PrintedOrder(bound, id);
    } else {
      OtherRecord(k, l, PrintId(id), PrintId(bound), MAX_MESSAGE_ID);
    }
  }

  lemma OtherRecord(k: RecordKey, l: RecordKey, x: string, a: string, b: string)
    requires k != l
    ensures StringLess(PrefixOf(k) + x, PrefixOf(l) + a) == StringLess(PrefixOf(k) + x, PrefixOf(l) + b)
    ensures StringLess(PrefixOf(l) + a, PrefixOf(k) + x) == StringLess(PrefixOf(l) + b, PrefixOf(k) + x)
    ensures StringLess(PrefixOf(k) + x, PrefixOf(l) + a) != StringLess(PrefixOf(l) + b, PrefixOf(k) + x)
  {
    PrefixesPart(k, l);
    var i :| 0 <= i < |PrefixOf(k)| && i < |PrefixOf(l)| && PrefixOf(k)[i] != PrefixOf(l)[i];
    ComparePrefixes(PrefixOf(k), PrefixOf(l), i, x, a, b);
  }
}
