/** Sizes as a stream stores them: seven bits a byte, the lowest first, the highest bit of a byte telling that
    more follow. This is unsigned LEB128 (section 7.6 of DWARF Version 5), limited to 64 bits. */
module CompressedIntegers {
  import opened ByteStrings

  const LIMIT: nat := 0x1_0000_0000_0000_0000

  type Size = n: nat | n < LIMIT

  /** What reading ends with: a value and what is left to read, an exception, or a failed assertion. */
  datatype Outcome<+T, +R> = Got(value: T, rest: R) | Thrown | Trapped

  function Leb(n: nat): (r: seq<Byte>)
    ensures r != []
  {
    if n < 128 then [n] else [n % 128 + 128] + Leb(n / 128)
  }

  function BitWidth(n: nat): nat {
    if n == 0 then 0 else 1 + BitWidth(n / 2)
  }

  function CompressedSize(n: nat): nat {
    (BitWidth(if n % 2 == 0 then n + 1 else n) + 6) / 7
  }

  /** The size in bytes is predicted without encoding. */
  lemma {:induction false} SizeIsLength(n: nat)
    ensures CompressedSize(n) == |Leb(n)|
  {
    if n < 128 {
      WidthSmall(n);
    } else {
      SizeIsLength(n / 128);
      WidthOdd(n);
      WidthOdd(n / 128);
      WidthBig(n);
    }
  }

  lemma WidthOdd(n: nat)
    ensures n > 0 ==> BitWidth(if n % 2 == 0 then n + 1 else n) == BitWidth(n)
  {
    assert n % 2 == 0 ==> (n + 1) / 2 == n / 2;
  }

  lemma {:induction false} WidthSmall(n: nat)
    requires n < 128
    ensures 1 <= BitWidth(if n % 2 == 0 then n + 1 else n) <= 7
  {
    var m := if n % 2 == 0 then n + 1 else n;
    WidthBelow(m, 7);
  }

  lemma {:induction false} WidthBelow(n: nat, k: nat)
    requires n < Pow2(k)
    ensures BitWidth(n) <= k
  {
    if n > 0 {
      WidthBelow(n / 2, k - 1);
    }
  }

  lemma {:induction false} WidthBig(n: nat)
    requires n >= 128
    ensures BitWidth(n) == 7 + BitWidth(n / 128)
  {
    var a := n / 2;
    var b := a / 2;
    var c := b / 2;
    var d := c / 2;
    var e := d / 2;
    var f := e / 2;
    assert f / 2 == n / 128;
    assert BitWidth(n) == 1 + BitWidth(a) && BitWidth(a) == 1 + BitWidth(b) && BitWidth(b) == 1 + BitWidth(c);
    assert BitWidth(c) == 1 + BitWidth(d) && BitWidth(d) == 1 + BitWidth(e) && BitWidth(e) == 1 + BitWidth(f);
  }

  function Pow2(n: nat): (r: nat)
    ensures r > 0
  {
    if n == 0 then 1 else 2 * Pow2(n - 1)
  }

  lemma Pow2Group(n: nat)
    ensures Pow2(n + 7) == 128 * Pow2(n)
  {
    assert Pow2(n + 7) == 2 * Pow2(n + 6) && Pow2(n + 6) == 2 * Pow2(n + 5) && Pow2(n + 5) == 2 * Pow2(n + 4);
    assert Pow2(n + 4) == 2 * Pow2(n + 3) && Pow2(n + 3) == 2 * Pow2(n + 2) && Pow2(n + 2) == 2 * Pow2(n + 1);
  }

  lemma {:induction false} Pow2Grows(m: nat, n: nat)
    requires m <= n
    ensures Pow2(m) <= Pow2(n)
  {
    if m < n {
      Pow2Grows(m, n - 1);
    }
  }

  /** Byte number `k` holds bits 7k to 7k + 6, and tells whether more bytes follow. */
  lemma {:induction false} LebAt(n: nat, k: nat)
    requires k < |Leb(n)|
    ensures Leb(n)[k] == n / Pow2(7 * k) % 128 + (if k + 1 < |Leb(n)| then 128 else 0)
    ensures k + 1 == |Leb(n)| ==> n / Pow2(7 * k) < 128 && (k > 0 ==> n / Pow2(7 * k) > 0)
  {
    hide Pow2;
    LebRest(n);
    if k == 0 {
      assert 7 * k == 0;
    } else {
      LebAt(n / 128, k - 1);
      Pow2Group(7 * (k - 1));
      assert 7 * (k - 1) + 7 == 7 * k;
      DivTwice(n, Pow2(7 * (k - 1)));
    }
  }

  lemma {:induction false} LebRest(n: nat)
    ensures Leb(n)[0] == n % 128 + (if |Leb(n)| > 1 then 128 else 0) && Pow2(0) == 1 && (n < 128 <==> |Leb(n)| == 1)
    ensures |Leb(n)| > 1 ==> |Leb(n)| == 1 + |Leb(n / 128)| && Leb(n)[1..] == Leb(n / 128)
  {
  }

  lemma DivTwice(n: nat, p: nat)
    requires p > 0
    ensures n / 128 / p == n / (128 * p)
  {
    var h := n / 128;
    var q, s := h / p, h % p;
    Divides(h, p);
    assert n == 128 * (p * q) + (128 * s + n % 128);
    assert 128 * (p * q) == 128 * p * q;
    QuotientIs(n, 128 * p, q, 128 * s + n % 128);
  }

  lemma Divides(n: nat, d: nat)
    requires d > 0
    ensures n == d * (n / d) + n % d && n % d < d
  {
  }

  lemma QuotientIs(n: nat, d: nat, q: nat, r: nat)
    requires d > 0 && r < d && n == d * q + r
    ensures n / d == q
  {
    var e := n / d;
    Divides(n, d);
    assert d * e - d * q == d * (e - q);
    Times(d, e - q);
  }

  lemma Times(d: int, k: int)
    requires d >= 0
    ensures k > 0 ==> d * k >= d
    ensures k < 0 ==> d * k <= -d
  {
  }

  /** Reading on after `shift` bits, `result` being what these made. The groups do not overlap, so merging one
      in is adding it; what does not fit into 64 bits is lost. More than ten groups are an error. */
  function ReadLeb(s: seq<Byte>, shift: nat, result: Size): Outcome<Size, seq<Byte>>
    decreases |s|
  {
    if shift >= 70 || s == [] then Thrown else
      var now := (result + s[0] % 128 * Pow2(shift)) % LIMIT;
      if s[0] >= 128 then ReadLeb(s[1..], shift + 7, now) else Got(now, s[1..])
  }

  /** The number that `n` groups of seven bits make. */
  function Groups(s: seq<Byte>, n: nat): nat
    requires n <= |s|
  {
    if n == 0 then 0 else s[0] % 128 + 128 * Groups(s[1..], n - 1)
  }

  /** What is read ends with the first byte below 128. No such byte among the first ten is an error, and what goes
      beyond 64 bits is lost. */
  lemma ReadLebIs(s: seq<Byte>)
    ensures ReadLeb(s, 0, 0).Thrown? <==> forall k | 0 <= k < |s| && k < 10 :: s[k] >= 128
    ensures forall n | 0 < n <= |s| && n <= 10 && s[n - 1] < 128 && (forall k | 0 <= k < n - 1 :: s[k] >= 128) ::
              ReadLeb(s, 0, 0) == Got(Groups(s, n) % LIMIT, s[n..])
  {
    hide Groups, ReadLeb;
    forall n | 0 < n <= |s| && n <= 10 && s[n - 1] < 128 && (forall k | 0 <= k < n - 1 :: s[k] >= 128)
      ensures ReadLeb(s, 0, 0) == Got(Groups(s, n) % LIMIT, s[n..])
    {
      ReadGets(s, 0, 0, n);
      assert Pow2(0) == 1;
    }
    if forall k | 0 <= k < |s| && k < 10 :: s[k] >= 128 {
      ReadThrows(s, 0, 0);
    } else {
      var n := FirstEnd(s);
      assert ReadLeb(s, 0, 0) == Got(Groups(s, n) % LIMIT, s[n..]);
    }
  }

  lemma {:induction false} FirstEnd(s: seq<Byte>) returns (n: nat)
    requires exists k :: 0 <= k < |s| && k < 10 && s[k] < 128
    ensures 0 < n <= |s| && n <= 10 && s[n - 1] < 128 && forall k | 0 <= k < n - 1 :: s[k] >= 128
  {
    n := 1;
    while s[n - 1] >= 128
      invariant 0 < n <= |s| && n <= 10 && forall k | 0 <= k < n - 1 :: s[k] >= 128
      decreases |s| - n
    {
      n := n + 1;
    }
  }

  lemma {:induction false} ReadThrows(s: seq<Byte>, shift: nat, result: Size)
    requires forall k | 0 <= k < |s| && shift + 7 * k < 70 :: s[k] >= 128
    ensures ReadLeb(s, shift, result) == Thrown
    decreases |s|
  {
    hide Pow2;
    if shift < 70 && s != [] {
      forall k | 0 <= k < |s[1..]| && shift + 7 + 7 * k < 70 ensures s[1..][k] >= 128 {
        assert s[1..][k] == s[k + 1];
      }
      assert shift + 7 * 0 < 70 ==> s[0] >= 128;
      ReadThrows(s[1..], shift + 7, (result + s[0] % 128 * Pow2(shift)) % LIMIT);
    }
  }

  lemma {:induction false} ReadGets(s: seq<Byte>, shift: nat, result: Size, n: nat)
    requires 0 < n <= |s| && shift + 7 * (n - 1) < 70 && s[n - 1] < 128 && forall k | 0 <= k < n - 1 :: s[k] >= 128
    ensures ReadLeb(s, shift, result) == Got((result + Pow2(shift) * Groups(s, n)) % LIMIT, s[n..])
    decreases n
  {
    hide Pow2;
    var now := (result + s[0] % 128 * Pow2(shift)) % LIMIT;
    if n == 1 {
      assert Groups(s, 1) == s[0] % 128;
    } else {
      var rest := Groups(s[1..], n - 1);
      assert s[1..][n - 2] == s[n - 1] && s[1..][n - 1..] == s[n..];
      ReadGets(s[1..], shift + 7, now, n - 1);
      Pow2Group(shift);
      TwoGroups(result, s[0] % 128, rest, Pow2(shift));
    }
  }

  lemma TwoGroups(result: nat, low: nat, high: nat, p: nat)
    ensures ((result + low * p) % LIMIT + 128 * p * high) % LIMIT == (result + p * (low + 128 * high)) % LIMIT
  {
    ModPlus(result + low * p, 128 * p * high);
    assert p * (low + 128 * high) == low * p + 128 * p * high;
  }

  lemma ModPlus(a: nat, b: nat)
    ensures (a % LIMIT + b) % LIMIT == (a + b) % LIMIT
  {
  }

  lemma LebRoundTrip(n: Size, rest: seq<Byte>)
    ensures ReadLeb(Leb(n) + rest, 0, 0) == Got(n, rest)
  {
    assert Pow2(0) == 1;
    LebReads(n, 0, 0, rest);
  }

  lemma {:induction false} LebReads(n: nat, shift: nat, sofar: Size, rest: seq<Byte>)
    requires n * Pow2(shift) + sofar < LIMIT && sofar < Pow2(shift) && shift < 70
    ensures ReadLeb(Leb(n) + rest, shift, sofar) == Got(n * Pow2(shift) + sofar, rest)
    decreases n
  {
    hide Pow2, ReadLeb;
    var p := Pow2(shift);
    if n < 128 {
      LastGroup(n, shift, sofar, rest);
    } else {
      var low, high := n % 128, n / 128;
      GroupSum(low, high, p, sofar);
      Pow2Group(shift);
      ShiftFits(n, shift);
      MoreGroups(n, shift, sofar, rest);
      LebReads(high, shift + 7, low * p + sofar, rest);
    }
  }

  lemma {:induction false} LastGroup(n: nat, shift: nat, sofar: Size, rest: seq<Byte>)
    requires n < 128 && n * Pow2(shift) + sofar < LIMIT && shift < 70
    ensures ReadLeb(Leb(n) + rest, shift, sofar) == Got(n * Pow2(shift) + sofar, rest)
  {
    hide Pow2;
    var s := Leb(n) + rest;
    assert s[0] == n && s[1..] == rest;
    Unchanged(sofar + n * Pow2(shift));
  }

  lemma {:induction false} MoreGroups(n: nat, shift: nat, sofar: Size, rest: seq<Byte>)
    requires n >= 128 && n % 128 * Pow2(shift) + sofar < LIMIT && shift < 70
    ensures ReadLeb(Leb(n) + rest, shift, sofar)
            == ReadLeb(Leb(n / 128) + rest, shift + 7, n % 128 * Pow2(shift) + sofar)
  {
    hide Pow2, ReadLeb;
    var s := Leb(n) + rest;
    assert s[0] == n % 128 + 128 && s[1..] == Leb(n / 128) + rest;
    LowBits(n % 128);
    NextGroup(s, shift, sofar, n % 128);
  }

  lemma {:induction false} NextGroup(s: seq<Byte>, shift: nat, sofar: Size, low: nat)
    requires s != [] && s[0] >= 128 && s[0] % 128 == low && low * Pow2(shift) + sofar < LIMIT && shift < 70
    ensures ReadLeb(s, shift, sofar) == ReadLeb(s[1..], shift + 7, low * Pow2(shift) + sofar)
  {
    hide Pow2;
    Unchanged(sofar + low * Pow2(shift));
  }

  lemma LowBits(n: nat)
    requires n < 128
    ensures (n + 128) % 128 == n
  {
  }

  lemma Unchanged(n: nat)
    requires n < LIMIT
    ensures n % LIMIT == n
  {
  }

  lemma ShiftFits(n: nat, shift: nat)
    requires n >= 128 && n * Pow2(shift) < LIMIT
    ensures shift + 7 < 70
  {
    hide Pow2;
    if shift + 7 >= 70 {
      Pow2Grows(63, shift);
      PowOf63();
      Larger(n, Pow2(shift));
    }
  }

  lemma GroupSum(low: nat, high: nat, p: nat, sofar: nat)
    requires sofar < p && low < 128
    ensures high * (128 * p) + (low * p + sofar) == (128 * high + low) * p + sofar
    ensures low * p + sofar < 128 * p && low * p + sofar <= (128 * high + low) * p + sofar
  {
    assert (low + 1) * p <= 128 * p;
    assert low * p <= (128 * high + low) * p;
  }

  lemma Larger(n: nat, p: nat)
    requires n >= 128 && p >= 0x8000_0000_0000_0000
    ensures n * p >= LIMIT
  {
    assert n * p >= 128 * p;
  }

  lemma PowOf63()
    ensures Pow2(63) == 0x8000_0000_0000_0000
  {
    hide Pow2;
    NoShift();
    Pow2Group(0);
    Pow2Group(7);
    Pow2Group(14);
    Pow2Group(21);
    Pow2Group(28);
    Pow2Group(35);
    Pow2Group(42);
    Pow2Group(49);
    Pow2Group(56);
  }

  lemma NoShift()
    ensures Pow2(0) == 1
  {
  }
}
