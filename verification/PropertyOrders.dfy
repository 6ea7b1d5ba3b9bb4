/** Property values and their orders (modeldb/src/query.ts). */
module PropertyOrders {
  import opened Clock
  import opened Positional
  import opened MessageKeys
  import opened Options

  /** Integers and floats are numbers; NaN is left out. */
  datatype PropertyValue =
    | Null
    | Text(text: string)
    | Number(number: real)
    | Bytes(bytes: seq<byte>)
    | Boolean(boolean: bool)
    | Texts(texts: seq<string>)

  /** `lessThan` on byte strings, where null comes first. */
  method LessThan(a: Option<seq<byte>>, b: Option<seq<byte>>) returns (less: bool)
    ensures less == (b.Some? && (a.None? || LexLess(a.value, b.value)))
  {
    if a.None? || b.None? {
      return b.Some?;
    }
    var s, t := a.value, b.value;
    var x: int, y: int := |s|, |t|;
    var len := if x < y then x else y;
    for i := 0 to len
      invariant x == |s| && y == |t|
      invariant LexLess(s, t) == LexLess(s[i..], t[i..])
    {
      if s[i] != t[i] {
        x, y := s[i], t[i];
        break;
      }
      assert s[i..][1..] == s[i + 1..] && t[i..][1..] == t[i + 1..];
    }
    less := x < y;
  }
}
