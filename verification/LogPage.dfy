/** The bytes of a log page: four words that tell for which page it was made, the number of entries, the entries, and
    the checksum in the last word. */
module LogPages {
  import opened Basics
  import opened Disk
  import opened ByteStrings
  import opened Words

  const PAGE: nat := 4096

  // ------------------------------------------------------------------ signatures

  // The pseudo random numbers that make up a signature are A x, A A x, .. modulo M.

  const M: nat := 2147483647
  const A: nat := 48271

  function Seed(index: PageIndex): (s: nat)
    ensures 0 < s < M
  {
    if index % M == 0 then 1 else index % M
  }

  function Random(x: nat): (r: nat)
    ensures r < M
  {
    A * x % M
  }

  function Signature(index: PageIndex): (s: seq<PageIndex>)
    ensures |s| == 4
  {
    var a := Random(Seed(index));
    [a, Random(a), Random(Random(a)), Random(Random(Random(a)))]
  }

  /** Multiplying by the inverse of `A` takes a step back. */
  lemma StepBack(x: nat)
    requires x < M
    ensures 1899818559 * Random(x) % M == x
  {
    var q, r := A * x / M, Random(x);
    Quotient(A * x, M);
    Remainder(1899818559 * r, M, 42704 * x - 1899818559 * q, x);
  }

  lemma Quotient(n: nat, d: nat)
    requires d > 0
    ensures n == n / d * d + n % d
  {
  }

  lemma Remainder(n: nat, d: nat, k: int, r: nat)
    requires r < d && n == k * d + r
    ensures n % d == r
  {
    var e := n / d;
    Quotient(n, d);
    assert e * d - k * d == (e - k) * d;
    AtLeast(d, e - k);
  }

  lemma AtLeast(d: nat, k: int)
    ensures k > 0 ==> k * d >= d
    ensures k < 0 ==> k * d <= -(d as int)
  {
  }

  /** A signature tells page indices apart up to multiples of `M`, save that it does not tell 0 and 1 apart. */
  lemma SignatureTells(p: PageIndex, q: PageIndex)
    ensures Signature(p) == Signature(q) <==> p % M == q % M || (p % M <= 1 && q % M <= 1)
  {
    hide Random;
    if Signature(p) == Signature(q) {
      assert Signature(p)[0] == Random(Seed(p)) && Signature(q)[0] == Random(Seed(q));
      StepBack(Seed(p));
      StepBack(Seed(q));
    }
  }

  // ------------------------------------------------------------------ words

  function WordOf(bytes: seq<Byte>, i: nat): PageIndex
    requires |bytes| == PAGE && i < PAGE / 4
  {
    IdOf(bytes[4 * i..4 * i + 4])
  }

  lemma WordKept(was: seq<Byte>, now: seq<Byte>, i: nat, j: nat)
    requires |was| == |now| == PAGE && i < PAGE / 4 && j < PAGE / 4 && i != j
    requires now[..4 * i] == was[..4 * i] && now[4 * i + 4..] == was[4 * i + 4..]
    ensures WordOf(now, j) == WordOf(was, j)
  {
    if j < i {
      assert now[4 * j..4 * j + 4] == now[..4 * i][4 * j..4 * j + 4] == was[4 * j..4 * j + 4];
    } else {
      var o := 4 * i + 4;
      assert now[4 * j..4 * j + 4] == now[o..][4 * j - o..4 * j + 4 - o] == was[4 * j..4 * j + 4];
    }
  }

  ghost predicate Signed(bytes: seq<Byte>, index: PageIndex)
    requires |bytes| == PAGE
  {
    forall i | 0 <= i < 4 :: WordOf(bytes, i) == Signature(index)[i]
  }

  /** How many entries a page says it has. */
  function SizeOf(bytes: seq<Byte>): nat
    requires |bytes| == PAGE
  {
    WordOf(bytes, 4)
  }

  function EntryOf(bytes: seq<Byte>, k: nat): Copy
    requires |bytes| == PAGE && k < MAX_ENTRIES
  {
    Copy(WordOf(bytes, 5 + 2 * k), WordOf(bytes, 6 + 2 * k))
  }

  function EntriesOf(bytes: seq<Byte>): (r: seq<Copy>)
    requires |bytes| == PAGE && SizeOf(bytes) <= MAX_ENTRIES
  {
    seq(SizeOf(bytes), k requires 0 <= k < SizeOf(bytes) => EntryOf(bytes, k))
  }

  /** That many entries find room between the number of them and the checksum, and not one more. */
  lemma EntriesFit(n: nat)
    ensures 4 * 5 + 8 * n + 4 <= PAGE <==> n <= MAX_ENTRIES
  {
  }

  ghost predicate Indices(copies: seq<Copy>) {
    forall k | 0 <= k < |copies| :: copies[k].orig < 0x1_0000_0000 && copies[k].copy < 0x1_0000_0000
  }

  /** One more entry has been written, and then the number of entries. */
  lemma EntriesMore(was: seq<Byte>, now: seq<Byte>, c: Copy)
    requires |was| == |now| == PAGE && SizeOf(was) < MAX_ENTRIES && SizeOf(now) == SizeOf(was) + 1
    requires EntryOf(now, SizeOf(was)) == c
    requires forall i | 5 <= i < 5 + 2 * SizeOf(was) :: WordOf(now, i) == WordOf(was, i)
    ensures EntriesOf(now) == EntriesOf(was) + [c]
  {
    hide WordOf;
    var a, b := EntriesOf(was) + [c], EntriesOf(now);
    forall k | 0 <= k < |b| ensures b[k] == a[k] {
    }
  }

  // ------------------------------------------------------------------ the page

  class LogPage {
    const data: array<Byte>

    ghost predicate Valid() {
      data.Length == PAGE
    }

    /** The page has a number of entries that it can have. */
    ghost predicate Sized()
      requires Valid()
      reads data
    {
      SizeOf(data[..]) <= MAX_ENTRIES
    }

    ghost function Entries(): seq<Copy>
      requires Valid() && Sized()
      reads data
    {
      EntriesOf(data[..])
    }

    /** A page without entries, made for page `index`. */
    constructor (index: PageIndex)
      ensures Valid() && fresh(data) && Signed(data[..], index) && Sized() && Entries() == []
    {
      data := new Byte[PAGE](_ => 0);
      new;
      hide Signature, WordOf;
      var s := Signature(index);
      PutWord(4, 0);
      for i := 0 to 4
        invariant WordOf(data[..], 4) == 0 && forall j | 0 <= j < i :: WordOf(data[..], j) == s[j]
      {
        PutWord(i, s[i]);
      }
    }

    method PutWord(i: nat, id: PageIndex)
      requires Valid() && i < PAGE / 4
      modifies data
      ensures WordOf(data[..], i) == id
      ensures forall j | 0 <= j < PAGE / 4 && j != i :: WordOf(data[..], j) == old(WordOf(data[..], j))
    {
      ghost var was := data[..];
      data[4 * i], data[4 * i + 1], data[4 * i + 2], data[4 * i + 3]
        := id % 256, id / 256 % 256, id / 256 / 256 % 256, id / 256 / 256 / 256;
      assert data[4 * i..4 * i + 4] == IdBytes(id);
      IdRoundTrip(id);
      ghost var now := data[..];
      assert now[4 * i..4 * i + 4] == data[4 * i..4 * i + 4];
      assert now[..4 * i] == was[..4 * i] && now[4 * i + 4..] == was[4 * i + 4..];
      forall j | 0 <= j < PAGE / 4 && j != i ensures WordOf(now, j) == WordOf(was, j) {
        WordKept(was, now, i, j);
      }
    }

    /** Was the page made for this one? */
    method CheckSignature(index: PageIndex) returns (ok: bool)
      requires Valid()
      ensures ok <==> Signed(data[..], index) && Sized()
    {
      hide Signature, WordOf;
      var s := Signature(index);
      for i := 0 to 4
        invariant forall j | 0 <= j < i :: WordOf(data[..], j) == s[j]
      {
        if WordOf(data[..], i) != s[i] {
          return false;
        }
      }
      ok := SizeOf(data[..]) <= MAX_ENTRIES;
    }

    /** One more entry, if there is room. Nothing else on the page changes. */
    method PushBack(c: Copy) returns (ok: bool)
      requires Valid() && Sized() && Indices([c])
      modifies data
      ensures Sized() && ok == (|old(Entries())| < MAX_ENTRIES)
      ensures Entries() == old(Entries()) + if ok then [c] else []
      ensures forall i | 0 <= i < 4 || i == PAGE / 4 - 1 :: WordOf(data[..], i) == old(WordOf(data[..], i))
    {
      hide WordOf;
      ghost var was := data[..];
      var size := SizeOf(data[..]);
      ok := size < MAX_ENTRIES;
      if ok {
        assert Indices([c]) && [c][0] == c;
        PutWord(5 + 2 * size, c.orig);
        PutWord(6 + 2 * size, c.copy);
        PutWord(4, size + 1);
        EntriesMore(was, data[..], c);
      }
    }

    /** The first of these entries, as many as there is room for. */
    method PushBackAll(copies: seq<Copy>) returns (rest: seq<Copy>)
      requires Valid() && Sized() && Indices(copies)
      modifies data
      ensures Sized() && Entries() == old(Entries()) + copies[..Least(MAX_ENTRIES - |old(Entries())|, |copies|)]
      ensures rest == copies[Least(MAX_ENTRIES - |old(Entries())|, |copies|)..]
      ensures forall i | 0 <= i < 4 || i == PAGE / 4 - 1 :: WordOf(data[..], i) == old(WordOf(data[..], i))
    {
      hide WordOf, EntriesOf;
      ghost var was := data[..];
      SizeIs(was);
      var n := MAX_ENTRIES - SizeOf(data[..]);
      if |copies| < n {
        n := |copies|;
      }
      for k := 0 to n
        invariant Sized() && Entries() == EntriesOf(was) + copies[..k]
        invariant forall i | 0 <= i < 4 || i == PAGE / 4 - 1 :: WordOf(data[..], i) == WordOf(was, i)
      {
        assert copies[..k + 1] == copies[..k] + [copies[k]];
        assert Indices([copies[k]]);
        var _ := PushBack(copies[k]);
      }
      rest := copies[n..];
    }

    method GetPageCopies() returns (copies: seq<Copy>)
      requires Valid() && Sized()
      ensures copies == Entries()
    {
      copies := EntriesOf(data[..]);
    }
  }

  lemma SizeIs(bytes: seq<Byte>)
    requires |bytes| == PAGE && SizeOf(bytes) <= MAX_ENTRIES
    ensures |EntriesOf(bytes)| == SizeOf(bytes)
  {
  }

  /** What a log page made for one page holds when it is read as one for another. */
  method WriteAndRead(index: PageIndex, copies: seq<Copy>, at: PageIndex) returns (ok: bool, found: seq<Copy>)
    requires Indices(copies)
    ensures ok <==> index % M == at % M || (index % M <= 1 && at % M <= 1)
    ensures ok ==> found == copies[..Least(MAX_ENTRIES, |copies|)]
  {
    hide WordOf, EntriesOf;
    var page := new LogPage(index);
    var rest := page.PushBackAll(copies);
    ok := page.CheckSignature(at);
    SignatureTells(index, at);
    found := page.GetPageCopies();
  }
}
