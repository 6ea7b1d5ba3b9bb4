/** Names of SQL placeholders: `p{i}` for the i-th condition of a where clause, `p{i}q{j}`
    for its j-th part.  Different places have different names. */
module Placeholders {
  import opened Strings

  function P(i: nat): string {
    "p" + Decimal(i)
  }

  function Q(i: nat, j: nat): string {
    P(i) + "q" + Decimal(j)
  }

  lemma SplitNames(i: nat, j: nat)
    ensures Split(P(i), 'q') == [P(i)]
    ensures Split(Q(i, j), 'q') == [P(i), Decimal(j)]
  {
    SplitNone(P(i), 'q');
    SplitPart(P(i), 'q', Decimal(j));
    SplitNone(Decimal(j), 'q');
  }

  /** No placeholder is used for two values. */
  lemma NamesDiffer(i: nat, j: nat, k: nat, l: nat)
    ensures P(i) == P(k) <==> i == k
    ensures Q(i, j) == Q(k, l) <==> i == k && j == l
    ensures P(i) != Q(k, l)
  {
    assert P(i)[1..] == Decimal(i) && P(k)[1..] == Decimal(k);
    DecimalReads(i);
    DecimalReads(j);
    DecimalReads(k);
    DecimalReads(l);
    SplitNames(i, j);
    SplitNames(k, l);
  }
}
