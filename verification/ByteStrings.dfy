/** Byte strings of up to 255 bytes, the keys and values of the tree, and their order. */
module ByteStrings {

  type Byte = b: int | 0 <= b < 256

  type ByteString = s: seq<Byte> | |s| <= 255

  datatype Entry = Entry(key: ByteString, value: ByteString)

  /** Lexicographic order: the order of the tree. */
  predicate Less(a: seq<Byte>, b: seq<Byte>) {
    if b == [] then false
    else if a == [] then true
    else a[0] < b[0] || (a[0] == b[0] && Less(a[1..], b[1..]))
  }

  /** A number for each byte string. Comparing strings is comparing their numbers. */
  ghost function Rank(s: seq<Byte>): (r: real)
    ensures 0.0 <= r < 1.0
    ensures r == 0.0 <==> s == []
  {
    if s == [] then 0.0 else (s[0] as real + 1.0 + Rank(s[1..])) / 258.0
  }

  lemma {:induction false} RankOrders(a: seq<Byte>, b: seq<Byte>)
    ensures Less(a, b) <==> Rank(a) < Rank(b)
    ensures Rank(a) == Rank(b) <==> a == b
    decreases |a|
  {
    if a != [] && b != [] {
      RankOrders(a[1..], b[1..]);
      assert a == [a[0]] + a[1..] && b == [b[0]] + b[1..];
    }
  }
}
